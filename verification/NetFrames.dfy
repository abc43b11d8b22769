/**
 The frames of `lua-netpack.c`: a 16-bit big-endian length and data, one after the other in a stream.
 */
module NetFrames {

  import opened Basics

  const LIMIT := 0x1_0000

  /** `lpack`; longer data is refused. */
  function Pack(f: seq<Byte>): (r: seq<Byte>)
    requires |f| < LIMIT
    ensures |r| == |f| + 2 && SizeAt(r) == |f| && r[2..] == f
  {
    [|f| / 256, |f| % 256] + f
  }

  function Encode(frames: seq<seq<Byte>>): seq<Byte>
    requires forall i :: 0 <= i < |frames| ==> |frames[i]| < LIMIT
  {
    if frames == [] then [] else Pack(frames[0]) + Encode(frames[1..])
  }

  /** `read_size` */
  function SizeAt(s: seq<Byte>): nat
    requires |s| >= 2
  {
    var hi: int, lo: int := s[0], s[1];
    hi * 256 + lo
  }

  /** The complete frames of a stream, and what is left of it. */
  datatype Parsed = Parsed(frames: seq<seq<Byte>>, rest: seq<Byte>)

  function Split(s: seq<Byte>): Parsed {
    if |s| < 2 || |s| - 2 < SizeAt(s) then Parsed([], s)
    else
      var n := SizeAt(s);
      var p := Split(s[2 + n..]);
      Parsed([s[2..2 + n]] + p.frames, p.rest)
  }

  /** One frame at the start of a stream. */
  lemma SplitOne(s: seq<Byte>, n: nat)
    requires |s| >= 2 && SizeAt(s) == n <= |s| - 2
    ensures Split(s) == Parsed([s[2..2 + n]] + Split(s[2 + n..]).frames, Split(s[2 + n..]).rest)
  {
  }

  predicate Short(s: seq<Byte>) { |s| < 2 || |s| - 2 < SizeAt(s) }

  lemma SplitShort(s: seq<Byte>)
    requires Short(s)
    ensures Split(s) == Parsed([], s)
  {
  }

  /** Cutting a stream anywhere makes no difference. */
  lemma {:induction false} SplitConcat(s: seq<Byte>, t: seq<Byte>)
    ensures Split(s + t) == Parsed(Split(s).frames + Split(Split(s).rest + t).frames, Split(Split(s).rest + t).rest)
    decreases |s|
  {
    hide Split;
    if Short(s) {
      SplitShort(s);
    } else {
      var n := SizeAt(s);
      var u := s[2 + n..];
      SplitOne(s, n);
      SplitOne(s + t, n);
      SplitConcat(u, t);
      assert (s + t)[2 + n..] == u + t && (s + t)[2..2 + n] == s[2..2 + n];
    }
  }

  /** Frames packed one after the other come back as they were. */
  lemma {:induction false} SplitEncode(frames: seq<seq<Byte>>)
    requires forall i :: 0 <= i < |frames| ==> |frames[i]| < LIMIT
    ensures Split(Encode(frames)) == Parsed(frames, [])
  {
    if frames != [] {
      var f, s, t := frames[0], Encode(frames), Encode(frames[1..]);
      SplitEncode(frames[1..]);
      assert s == [|f| / 256, |f| % 256] + f + t;
      assert SizeAt(s) == |f| && s[2..2 + |f|] == f && s[2 + |f|..] == t;
      assert frames == [f] + frames[1..];
    }
  }
}
