/**
 Writing into a chain of blocks and reading from a buffer, as `lua-seri.c` does it.
 */
module SeriBlocks {

  import opened Basics
  import opened SeriFormat

  const BLOCK_SIZE := 128

  function Flat(blocks: seq<seq<Byte>>): seq<Byte> {
    if blocks == [] then [] else Flat(blocks[..|blocks| - 1]) + blocks[|blocks| - 1]
  }

  lemma FlatSnoc(blocks: seq<seq<Byte>>, b: seq<Byte>)
    ensures Flat(blocks + [b]) == Flat(blocks) + b
  {
    assert (blocks + [b])[..|blocks|] == blocks;
  }

  lemma {:induction false} FlatSize(blocks: seq<seq<Byte>>)
    requires forall i :: 0 <= i < |blocks| ==> |blocks[i]| == BLOCK_SIZE
    ensures |Flat(blocks)| == BLOCK_SIZE * |blocks|
  {
    if blocks != [] { FlatSize(blocks[..|blocks| - 1]); }
  }

  /** `struct write_block`: the blocks that are full, and the current one. */
  class WriteBlock {
    var full: seq<seq<Byte>>
    var current: array<Byte>
    var ptr: nat
    var len: nat

    constructor ()
      ensures Valid() && fresh(current) && Contents() == []
    {
      full := [];
      current := new Byte[BLOCK_SIZE];
      ptr, len := 0, 0;
    }

    ghost predicate Valid()
      reads this, current
    {
      && current.Length == BLOCK_SIZE && ptr <= BLOCK_SIZE
      && (forall i :: 0 <= i < |full| ==> |full[i]| == BLOCK_SIZE)
      && len == |Flat(full)| + ptr
    }

    ghost function Contents(): seq<Byte>
      requires Valid()
      reads this, current
    {
      Flat(full) + current[..ptr]
    }

    /** Copies into the current block, which has room. */
    method Copy(buf: seq<Byte>)
      requires Valid() && ptr + |buf| <= BLOCK_SIZE
      modifies this`ptr, this`len, current
      ensures Valid() && ptr == old(ptr) + |buf| && Contents() == old(Contents()) + buf
    {
      hide Flat;
      var i := 0;
      ghost var before := current[..ptr];
      while i < |buf|
        invariant 0 <= i <= |buf| && ptr == old(ptr) && len == old(len) && Valid()
        invariant current[..ptr + i] == before + buf[..i]
      {
        current[ptr + i] := buf[i];
        i := i + 1;
      }
      ptr := ptr + |buf|;
      len := len + |buf|;
      assert current[..ptr] == before + buf;
    }

    method NewBlock()
      requires Valid() && ptr == BLOCK_SIZE
      modifies this
      ensures Valid() && fresh(current) && ptr == 0 && Contents() == old(Contents())
    {
      hide Flat;
      FlatSnoc(full, current[..]);
      assert current[..ptr] == current[..];
      full := full + [current[..]];
      current := new Byte[BLOCK_SIZE];
      ptr := 0;
    }

    /** `wb_push`: appends, over as many blocks as it takes. */
    method Push(buf: seq<Byte>)
      requires Valid()
      modifies this, current
      ensures Valid() && (current == old(current) || fresh(current)) && Contents() == old(Contents()) + buf
    {
      hide Flat;
      var rest := buf;
      if ptr == BLOCK_SIZE { NewBlock(); }
      while ptr + |rest| > BLOCK_SIZE
        invariant Valid() && (current == old(current) || fresh(current))
        invariant Contents() + rest == old(Contents()) + buf && ptr < BLOCK_SIZE
        decreases |rest|
      {
        var n := BLOCK_SIZE - ptr;
        ghost var before := Contents();
        assert before + rest == before + rest[..n] + rest[n..];
        Copy(rest[..n]);
        rest := rest[n..];
        NewBlock();
      }
      Copy(rest);
    }

    /** `seri`: the blocks, copied into one buffer. */
    method Seri() returns (buffer: seq<Byte>)
      requires Valid()
      ensures buffer == Contents()
    {
      hide Flat;
      FlatSize(full);
      buffer := [];
      var left, i := len, 0;
      ghost var nothing := Flat([]);
      FlatNone();
      while left >= BLOCK_SIZE && i < |full|
        invariant 0 <= i <= |full| && left == len - BLOCK_SIZE * i && buffer == Flat(full[..i])
      {
        FlatSnoc(full[..i], full[i]);
        assert full[..i + 1] == full[..i] + [full[i]];
        buffer := buffer + full[i];
        left, i := left - BLOCK_SIZE, i + 1;
      }
      assert full[..|full|] == full;
      buffer := buffer + current[..left];
    }
  }

  lemma FlatNone()
    ensures Flat([]) == []
  {
  }

  // ----- packing -----

  lemma {:induction false} EncSnoc(vs: seq<Value>, v: Value)
    ensures EncSeq(vs + [v]) == EncSeq(vs) + Enc(v)
    decreases |vs|
  {
    hide Enc;
    if vs == [] {
      assert vs + [v] == [v] && [v][1..] == [];
    } else {
      assert (vs + [v])[0] == vs[0] && (vs + [v])[1..] == vs[1..] + [v];
      EncSnoc(vs[1..], v);
    }
  }

  lemma {:induction false} HeightAt(vs: seq<Value>, i: nat)
    requires i < |vs|
    ensures Height(vs[i]) <= HeightSeq(vs)
    decreases |vs|
  {
    if i > 0 { HeightAt(vs[1..], i - 1); }
  }

  /** All of them fit, or the highest one does not. */
  lemma {:induction false} HeightBelow(vs: seq<Value>, h: int)
    requires vs != [] && forall i :: 0 <= i < |vs| ==> Height(vs[i]) <= h
    ensures HeightSeq(vs) <= h
    decreases |vs|
  {
    if |vs| > 1 { HeightBelow(vs[1..], h); }
  }

  /** The values of a list from one depth on. */
  method PackSeq(wb: WriteBlock, vs: seq<Value>, depth: nat) returns (ok: bool)
    requires wb.Valid()
    modifies wb, wb.current
    ensures wb.Valid() && (wb.current == old(wb.current) || fresh(wb.current))
    ensures ok <==> vs == [] || depth + HeightSeq(vs) <= MAX_DEPTH
    ensures ok ==> wb.Contents() == old(wb.Contents()) + EncSeq(vs)
    decreases vs
  {
    hide Enc, EncSeq, HeightSeq, Height, Flat;
    var i := 0;
    EncNone();
    while i < |vs|
      invariant 0 <= i <= |vs| && wb.Valid() && (wb.current == old(wb.current) || fresh(wb.current))
      invariant wb.Contents() == old(wb.Contents()) + EncSeq(vs[..i])
      invariant forall j :: 0 <= j < i ==> depth + Height(vs[j]) <= MAX_DEPTH
    {
      ok := PackOne(wb, vs[i], depth);
      HeightAt(vs, i);
      if !ok { return false; }
      EncSnoc(vs[..i], vs[i]);
      assert vs[..i + 1] == vs[..i] + [vs[i]];
      i := i + 1;
    }
    assert vs[..|vs|] == vs;
    if vs != [] { HeightBelow(vs, MAX_DEPTH - depth); }
    return true;
  }

  lemma EncNone()
    ensures EncSeq([]) == []
  {
  }

  /** `wb_table` */
  method PackTable(wb: WriteBlock, v: Value, depth: nat) returns (ok: bool)
    requires wb.Valid() && v.Table? && depth <= MAX_DEPTH
    modifies wb, wb.current
    ensures wb.Valid() && (wb.current == old(wb.current) || fresh(wb.current))
    ensures ok <==> depth + Height(v) <= MAX_DEPTH
    ensures ok ==> wb.Contents() == old(wb.Contents()) + Enc(v)
    decreases v, 0
  {
    hide EncSeq, HeightSeq, EncHead, Flat;
    wb.Push(EncHead(|v.arr|));
    ok := PackSeq(wb, v.arr, depth + 1);
    TableHeight(v);
    if !ok { return; }
    ok := PackSeq(wb, v.hash, depth + 1);
    if !ok { return; }
    wb.Push([Tag(0, 0)]);
    assert Enc(v) == EncHead(|v.arr|) + EncSeq(v.arr) + EncSeq(v.hash) + [Tag(0, 0)];
  }

  lemma TableHeight(v: Value)
    requires v.Table?
    ensures v.arr != [] ==> Height(v) >= 1 + HeightSeq(v.arr)
    ensures v.hash != [] ==> Height(v) >= 1 + HeightSeq(v.hash)
    ensures v.arr == [] && v.hash == [] ==> Height(v) == 0
    ensures v.arr != [] || v.hash != [] ==> Height(v) == 1 + Max(HeightSeq(v.arr), HeightSeq(v.hash))
    ensures v.arr == [] ==> HeightSeq(v.arr) == 0
    ensures v.hash == [] ==> HeightSeq(v.hash) == 0
  {
  }

  /** `pack_one`: fails exactly where the nesting goes below the limit. */
  method PackOne(wb: WriteBlock, v: Value, depth: nat) returns (ok: bool)
    requires wb.Valid()
    modifies wb, wb.current
    ensures wb.Valid() && (wb.current == old(wb.current) || fresh(wb.current))
    ensures ok <==> depth + Height(v) <= MAX_DEPTH
    ensures ok ==> wb.Contents() == old(wb.Contents()) + Enc(v)
    decreases v, 1
  {
    hide EncSeq, HeightSeq, EncHead, Flat;
    if depth > MAX_DEPTH { return false; }
    if v.Table? {
      ok := PackTable(wb, v, depth);
    } else {
      wb.Push(Enc(v));
      ok := true;
    }
  }

  /** `luaseri_pack` of a list of values */
  method Pack(vs: seq<Value>) returns (ok: bool, buffer: seq<Byte>)
    ensures ok <==> HeightSeq(vs) <= MAX_DEPTH
    ensures ok ==> buffer == EncSeq(vs)
  {
    hide EncSeq, HeightSeq;
    var wb := new WriteBlock();
    ok := PackSeq(wb, vs, 0);
    NoHeight();
    buffer := [];
    if ok { buffer := wb.Seri(); }
  }

  lemma NoHeight()
    ensures HeightSeq([]) == 0
  {
  }

  // ----- unpacking -----

  function Prepend(vs: seq<Value>, r: Read<seq<Value>>): Read<seq<Value>> {
    if r.Invalid? then Invalid else Done(vs + r.value, r.rest)
  }

  lemma PrependNone(r: Read<seq<Value>>)
    ensures Prepend([], r) == r
  {
    if r.Done? { assert [] + r.value == r.value; }
  }

  lemma PrependLast(vs: seq<Value>, rest: seq<Byte>)
    ensures Prepend(vs, Done([], rest)) == Done(vs, rest)
  {
    assert vs + [] == vs;
  }

  lemma PrependTwice(us: seq<Value>, vs: seq<Value>, r: Read<seq<Value>>)
    ensures Prepend(us, Prepend(vs, r)) == Prepend(us + vs, r)
  {
    if r.Done? { assert us + (vs + r.value) == (us + vs) + r.value; }
  }

  /** `struct read_block` */
  class ReadBlock {
    const buffer: seq<Byte>
    var len: nat
    var ptr: nat

    constructor (buffer: seq<Byte>)
      ensures Valid() && this.buffer == buffer && Rest() == buffer
    {
      this.buffer := buffer;
      len, ptr := |buffer|, 0;
    }

    ghost predicate Valid()
      reads this
    {
      ptr + len == |buffer|
    }

    /** What is left to read. */
    ghost function Rest(): seq<Byte>
      requires Valid()
      reads this
    {
      buffer[ptr..]
    }

    /** `rb_read` */
    method Bytes(n: nat) returns (ok: bool, bytes: seq<Byte>)
      requires Valid()
      modifies this
      ensures Valid() && ok == Take(old(Rest()), n).Done?
      ensures ok ==> Done(bytes, Rest()) == Take(old(Rest()), n)
    {
      if len < n { return false, []; }
      bytes := buffer[ptr..ptr + n];
      assert Rest()[..n] == bytes && Rest()[n..] == buffer[ptr + n..];
      ptr := ptr + n;
      len := len - n;
      return true, bytes;
    }

    /** `get_integer` */
    method GetInteger(cookie: nat) returns (ok: bool, v: int)
      requires Valid()
      modifies this
      ensures Valid() && ok == DecInt(old(Rest()), cookie).Done?
      ensures ok ==> Done(v, Rest()) == DecInt(old(Rest()), cookie)
    {
      v := 0;
      if cookie == 0 || cookie == 1 || cookie == 2 || cookie == 4 || cookie == 6 {
        var bytes;
        ok, bytes := Bytes(if cookie == 6 then 8 else cookie);
        if ok { v := IntOf(cookie, bytes); }
      } else {
        ok := false;
      }
    }

    /** The size of the array part, ahead of `unpack_table`'s loops. */
    method GetHead(cookie: nat) returns (ok: bool, n: int)
      requires Valid()
      modifies this
      ensures Valid() && ok == DecHead(old(Rest()), cookie).Done?
      ensures ok ==> Done(n, Rest()) == DecHead(old(Rest()), cookie)
    {
      if cookie != MAX_COOKIE - 1 { return true, cookie; }
      ghost var s := Rest();
      var bytes;
      ok, bytes := Bytes(1);
      n := 0;
      if !ok { return; }
      assert bytes[0] == s[0] && Rest() == s[1..];
      if bytes[0] % 8 != 2 || bytes[0] / 8 == 8 { return false, 0; }
      ok, n := GetInteger(bytes[0] / 8);
      if ok { n := Signed(n % W32, W32); }
    }

    /** `unpack_one` */
    method UnpackOne() returns (ok: bool, v: Value)
      requires Valid()
      modifies this
      ensures Valid() && ok == DecOne(old(Rest())).Done?
      ensures ok ==> Done(v, Rest()) == DecOne(old(Rest()))
      decreases |Rest()|, 0
    {
      hide DecBody;
      ghost var s := Rest();
      var bytes;
      ok, bytes := Bytes(1);
      v := Nil;
      if !ok { return; }
      assert bytes[0] == s[0] && Rest() == s[1..];
      ok, v := PushValue(bytes[0] % 8, bytes[0] / 8);
    }

    /** `push_value` of anything but a table */
    method PushScalar(t: nat, cookie: nat) returns (ok: bool, v: Value)
      requires Valid() && t != 6
      modifies this
      ensures Valid() && ok == DecBody(old(Rest()), t, cookie).Done?
      ensures ok ==> Done(v, Rest()) == DecBody(old(Rest()), t, cookie)
    {
      hide DecInt, IntOf, Number;
      var bytes: seq<Byte>;
      ok, v := true, Nil;
      match t {
        case 0 =>
        case 1 => v := Bool(cookie != 0);
        case 2 =>
          if cookie == 8 {
            ok, bytes := Bytes(8);
            v := Real(bytes);
          } else {
            var n;
            ok, n := GetInteger(cookie);
            v := Int(n);
          }
        case 3 =>
          ok, bytes := Bytes(8);
          v := Pointer(bytes);
        case 4 =>
          ok, bytes := Bytes(cookie);
          v := Str(bytes);
        case 5 =>
          if cookie != 2 && cookie != 4 { return false, Nil; }
          ok, bytes := Bytes(cookie);
          if !ok { return; }
          ok, bytes := Bytes(Number(bytes));
          v := Str(bytes);
        case _ => ok := false;
      }
    }

    /** `push_value` */
    method PushValue(t: nat, cookie: nat) returns (ok: bool, v: Value)
      requires Valid()
      modifies this
      ensures Valid() && ok == DecBody(old(Rest()), t, cookie).Done?
      ensures ok ==> Done(v, Rest()) == DecBody(old(Rest()), t, cookie)
      decreases |Rest()|, 3
    {
      if t != 6 {
        ok, v := PushScalar(t, cookie);
        return;
      }
      hide DecTable, DecHead;
      var n;
      ok, n := GetHead(cookie);
      v := Nil;
      if ok { ok, v := UnpackTable(n); }
    }

    /** `unpack_table` */
    method UnpackTable(n: int) returns (ok: bool, v: Value)
      requires Valid()
      modifies this
      ensures Valid() && ok == DecTable(old(Rest()), n).Done?
      ensures ok ==> Done(v, Rest()) == DecTable(old(Rest()), n)
      decreases |Rest()|, 2
    {
      hide DecSeq, DecPairs;
      var a, h;
      v := Nil;
      ok, a := UnpackArray(n);
      if !ok { return; }
      ok, h := UnpackHash();
      v := Table(a, h);
    }

    method UnpackArray(n: int) returns (ok: bool, a: seq<Value>)
      requires Valid()
      modifies this
      ensures Valid() && ok == DecSeq(old(Rest()), n).Done?
      ensures ok ==> Done(a, Rest()) == DecSeq(old(Rest()), n)
      decreases |Rest()|, 1
    {
      hide DecOne;
      ghost var s := Rest();
      a := [];
      var i := 0;
      PrependNone(DecSeq(s, n));
      while i < n
        invariant 0 <= i && (i <= n || n <= 0 == i) && Valid() && |Rest()| <= |s|
        invariant DecSeq(s, n) == Prepend(a, DecSeq(Rest(), n - i))
      {
        ghost var t := Rest();
        var v;
        ok, v := UnpackOne();
        if !ok { return; }
        PrependTwice(a, [v], DecSeq(Rest(), n - i - 1));
        a := a + [v];
        i := i + 1;
      }
      PrependLast(a, Rest());
      ok := true;
    }

    method UnpackHash() returns (ok: bool, h: seq<Value>)
      requires Valid()
      modifies this
      ensures Valid() && ok == DecPairs(old(Rest())).Done?
      ensures ok ==> Done(h, Rest()) == DecPairs(old(Rest()))
      decreases |Rest()|, 1
    {
      hide DecOne, IsNaN;
      ghost var s := Rest();
      h := [];
      PrependNone(DecPairs(s));
      while true
        invariant Valid() && |Rest()| <= |s|
        invariant DecPairs(s) == Prepend(h, DecPairs(Rest()))
        decreases |Rest()|
      {
        var k, v;
        ok, k := UnpackOne();
        if !ok { return; }
        if k == Nil {
          PrependLast(h, Rest());
          return;
        }
        ok, v := UnpackOne();
        if !ok { return; }
        if !IsKey(k) { return false, h; }
        PrependTwice(h, [k, v], DecPairs(Rest()));
        h := h + [k, v];
      }
    }
  }

  lemma AllStep(s: seq<Byte>)
    ensures s == [] ==> DecAll(s) == Done([], [])
    ensures s != [] && DecOne(s).Invalid? ==> DecAll(s) == Invalid
    ensures s != [] && DecOne(s).Done? ==> DecAll(s) == Prepend([DecOne(s).value], DecAll(DecOne(s).rest))
  {
  }

  /** `luaseri_unpack` */
  method Unpack(buffer: seq<Byte>) returns (ok: bool, vs: seq<Value>)
    ensures ok == DecAll(buffer).Done?
    ensures ok ==> vs == DecAll(buffer).value
  {
    hide DecOne, DecAll;
    var rb := new ReadBlock(buffer);
    vs := [];
    PrependNone(DecAll(buffer));
    while rb.len > 0
      invariant rb.Valid() && DecAll(buffer) == Prepend(vs, DecAll(rb.Rest()))
      decreases rb.len
    {
      var v;
      ghost var s := rb.Rest();
      AllStep(s);
      ok, v := rb.UnpackOne();
      if !ok {
        assert DecAll(s) == Invalid;
        return;
      }
      ghost var t := rb.Rest();
      assert DecAll(s) == Prepend([v], DecAll(t));
      PrependTwice(vs, [v], DecAll(t));
      vs := vs + [v];
    }
    AllStep(rb.Rest());
    PrependLast(vs, []);
    return true, vs;
  }

  /** Values packed and unpacked come back as they were, if their nesting lets them be packed at all. */
  method PackAndUnpack(vs: seq<Value>) returns (ok: bool, us: seq<Value>)
    requires AreValues(vs)
    ensures ok <==> HeightSeq(vs) <= MAX_DEPTH
    ensures ok ==> us == vs
  {
    hide DecAll, EncSeq, HeightSeq, AreValues;
    var buffer;
    ok, buffer := Pack(vs);
    us := [];
    if ok {
      AllTrip(vs);
      ok, us := Unpack(buffer);
    }
  }
}
