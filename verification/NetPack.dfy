/**
 The filter of `lua-netpack.c`: partial frames in hash chains, complete ones in a ring.
 */
module NetPack {

  import opened Basics
  import opened NetFrames
  import opened NetSchedule
  import opened RingBuffer

  const HASHSIZE := 4096
  const QUEUESIZE := 1024

  /** `struct netpack` */
  datatype Packet = Packet(id: nat, data: seq<Byte>)

  /** `struct uncomplete`: a lone first byte of a header (`read` is -1), or a frame of which `read` bytes are there. */
  datatype Uncomplete = Uncomplete(id: nat, read: int, header: Byte, size: nat, data: seq<Byte>)

  predicate UcOk(u: Uncomplete) { u.read == -1 || (0 <= u.read == |u.data| < u.size < LIMIT) }

  /** The bytes of the stream that an uncomplete frame stands for. */
  function Bytes(u: Uncomplete): seq<Byte>
    requires UcOk(u)
  {
    if u.read == -1 then [u.header] else [u.size / 256, u.size % 256] + u.data
  }

  /** `hash_fd` */
  function Hash(fd: nat): nat {
    ((fd / 0x100_0000 + fd / 0x1000 + fd) % 0x1_0000_0000) % HASHSIZE
  }

  // ----- chains -----

  predicate ChainOk(chain: seq<Uncomplete>, b: nat) {
    && (forall i :: 0 <= i < |chain| ==> UcOk(chain[i]) && Hash(chain[i].id) == b)
    && (forall i, j :: 0 <= i < j < |chain| ==> chain[i].id != chain[j].id)
  }

  predicate Absent(chain: seq<Uncomplete>, fd: nat) { forall i :: 0 <= i < |chain| ==> chain[i].id != fd }

  function PendingIn(chain: seq<Uncomplete>, fd: nat): seq<Byte>
    requires forall i :: 0 <= i < |chain| ==> UcOk(chain[i])
  {
    if chain == [] then [] else if chain[0].id == fd then Bytes(chain[0]) else PendingIn(chain[1..], fd)
  }

  lemma {:induction false} PendingAt(chain: seq<Uncomplete>, k: nat, b: nat)
    requires ChainOk(chain, b) && k < |chain|
    ensures PendingIn(chain, chain[k].id) == Bytes(chain[k])
  {
    if k > 0 { PendingAt(chain[1..], k - 1, b); }
  }

  lemma {:induction false} PendingAbsent(chain: seq<Uncomplete>, fd: nat)
    requires (forall i :: 0 <= i < |chain| ==> UcOk(chain[i])) && Absent(chain, fd)
    ensures PendingIn(chain, fd) == []
  {
    if chain != [] { PendingAbsent(chain[1..], fd); }
  }

  lemma {:induction false} PendingWithout(chain: seq<Uncomplete>, k: nat, fd: nat)
    requires (forall i :: 0 <= i < |chain| ==> UcOk(chain[i])) && k < |chain| && chain[k].id != fd
    ensures PendingIn(chain[..k] + chain[k + 1..], fd) == PendingIn(chain, fd)
  {
    var c := chain[..k] + chain[k + 1..];
    if k == 0 {
      assert c == chain[1..];
    } else {
      PendingWithout(chain[1..], k - 1, fd);
      assert c[1..] == chain[1..][..k - 1] + chain[1..][k..];
      assert c[0] == chain[0];
    }
  }

  lemma HeaderBytes(s: seq<Byte>)
    requires |s| >= 2
    ensures s == [SizeAt(s) / 256, SizeAt(s) % 256] + s[2..]
  {
    var hi: int, lo: int := s[0], s[1];
    assert (hi * 256 + lo) / 256 == hi && (hi * 256 + lo) % 256 == lo;
  }

  function Tagged(fd: nat, frames: seq<seq<Byte>>): seq<Packet> {
    seq(|frames|, i requires 0 <= i < |frames| => Packet(fd, frames[i]))
  }

  lemma TaggedCons(fd: nat, f: seq<Byte>, frames: seq<seq<Byte>>)
    ensures Tagged(fd, [f] + frames) == [Packet(fd, f)] + Tagged(fd, frames)
  {
  }

  /** What a call of the filter hands to its caller. */
  datatype Outcome = Nothing | Data(packet: Packet) | More

  /** `struct queue` */
  class Filter {
    const hash: array<seq<Uncomplete>>
    const ring: Ring<Packet>

    constructor ()
      ensures Valid() && fresh(hash) && fresh(ring) && fresh(ring.queue)
      ensures Queued() == [] && forall fd :: Pending(fd) == []
    {
      hash := new seq<Uncomplete>[HASHSIZE](_ => []);
      ring := new Ring<Packet>(QUEUESIZE, Packet(0, []));
    }

    ghost predicate Chains()
      reads this, hash
    {
      hash.Length == HASHSIZE && forall b :: 0 <= b < HASHSIZE ==> ChainOk(hash[b], b)
    }

    ghost predicate Valid()
      reads this, hash, ring, ring.queue
    {
      Chains() && ring.Valid()
    }

    /** The bytes of a connection that wait for the rest of their frame. */
    ghost function Pending(fd: nat): seq<Byte>
      requires Chains()
      reads this, hash
    {
      assert ChainOk(hash[Hash(fd)], Hash(fd));
      PendingIn(hash[Hash(fd)], fd)
    }

    ghost function Queued(): seq<Packet>
      requires ring.Valid()
      reads this, ring, ring.queue
    {
      ring.Contents()
    }

    /** `find_uncomplete`: takes the record of a connection out of its chain. */
    method FindUncomplete(fd: nat) returns (found: bool, uc: Uncomplete)
      requires Chains()
      modifies hash
      ensures Chains() && Absent(hash[Hash(fd)], fd)
      ensures found ==> UcOk(uc) && uc.id == fd && old(Pending(fd)) == Bytes(uc)
      ensures !found ==> old(Pending(fd)) == []
      ensures forall g :: g != fd ==> Pending(g) == old(Pending(g))
    {
      var h := Hash(fd);
      var chain := hash[h];
      assert ChainOk(chain, h);
      uc := Uncomplete(fd, -1, 0, 0, []);
      var i := 0;
      while i < |chain|
        invariant 0 <= i <= |chain| && hash[..] == old(hash[..])
        invariant forall j :: 0 <= j < i ==> chain[j].id != fd
      {
        if chain[i].id == fd {
          PendingAt(chain, i, h);
          forall g: nat | g != fd ensures PendingIn(chain[..i] + chain[i + 1..], g) == PendingIn(chain, g) {
            PendingWithout(chain, i, g);
          }
          assert ChainOk(chain[..i] + chain[i + 1..], h);
          hash[h] := chain[..i] + chain[i + 1..];
          return true, chain[i];
        }
        i := i + 1;
      }
      PendingAbsent(chain, fd);
      return false, uc;
    }

    /** `save_uncomplete` of a finished record */
    method Save(uc: Uncomplete)
      requires Chains() && UcOk(uc) && Absent(hash[Hash(uc.id)], uc.id)
      modifies hash
      ensures Chains() && Pending(uc.id) == Bytes(uc)
      ensures forall g :: g != uc.id ==> Pending(g) == old(Pending(g))
    {
      var h := Hash(uc.id);
      assert ChainOk(hash[h], h);
      ghost var chain := hash[h];
      hash[h] := [uc] + hash[h];
      assert hash[h][1..] == chain;
      assert ChainOk(hash[h], h);
    }

    /** `push_data` */
    method PushData(fd: nat, data: seq<Byte>)
      requires ring.Valid()
      modifies ring, ring.queue
      ensures ring.Valid() && (ring.queue == old(ring.queue) || fresh(ring.queue))
      ensures Queued() == old(Queued()) + [Packet(fd, data)]
    {
      ring.Push(Packet(fd, data), ring.queue.Length + QUEUESIZE);
    }

    /** `push_more`: queues the complete frames of `buffer` and keeps the rest. */
    method PushMore(fd: nat, buffer: seq<Byte>)
      requires Valid() && buffer != [] && Absent(hash[Hash(fd)], fd)
      modifies hash, ring, ring.queue
      ensures Valid() && (ring.queue == old(ring.queue) || fresh(ring.queue))
      ensures Queued() == old(Queued()) + Tagged(fd, Split(buffer).frames)
      ensures Pending(fd) == Split(buffer).rest
      ensures forall g :: g != fd ==> Pending(g) == old(Pending(g))
      decreases |buffer|
    {
      hide Split, PendingIn;
      if |buffer| == 1 {
        SplitShort(buffer);
        Save(Uncomplete(fd, -1, buffer[0], 0, []));
        assert buffer == [buffer[0]];
        return;
      }
      var n, body := SizeAt(buffer), buffer[2..];
      if |body| < n {
        SplitShort(buffer);
        Save(Uncomplete(fd, |body|, 0, n, body));
        HeaderBytes(buffer);
        return;
      }
      SplitOne(buffer, n);
      assert body[..n] == buffer[2..2 + n] && body[n..] == buffer[2 + n..];
      TaggedCons(fd, body[..n], Split(body[n..]).frames);
      PushData(fd, body[..n]);
      if |body| > n {
        PushMore(fd, body[n..]);
      } else {
        SplitShort(body[n..]);
        PendingAbsent(hash[Hash(fd)], fd);
      }
    }

    /** A frame of `size` bytes of which `data` is there, and `buffer` behind it. */
    method Complete(fd: nat, size: nat, data: seq<Byte>, buffer: seq<Byte>) returns (out: Outcome)
      requires Valid() && Absent(hash[Hash(fd)], fd) && |data| <= size < LIMIT
      modifies hash, ring, ring.queue
      ensures Valid() && (ring.queue == old(ring.queue) || fresh(ring.queue))
      ensures var p := Split([size / 256, size % 256] + data + buffer);
        && Pending(fd) == p.rest && Delivers(out, fd, p.frames, old(Queued()), Queued())
        && (out.Data? <==> |p.frames| == 1 && p.rest == [])
      ensures forall g :: g != fd ==> Pending(g) == old(Pending(g))
    {
      hide Split, PendingIn;
      ghost var s := [size / 256, size % 256] + data + buffer;
      SizeOf(size, data + buffer);
      assert s == [size / 256, size % 256] + (data + buffer);
      var need := size - |data|;
      if |buffer| < need {
        SplitShort(s);
        Save(Uncomplete(fd, |data + buffer|, 0, size, data + buffer));
        return Nothing;
      }
      var frame, more := data + buffer[..need], buffer[need..];
      SplitOne(s, size);
      assert s[2..2 + size] == frame && s[2 + size..] == more;
      TaggedCons(fd, frame, Split(more).frames);
      if more == [] {
        SplitShort(more);
        PendingAbsent(hash[Hash(fd)], fd);
        return Data(Packet(fd, frame));
      }
      NoFrameLeaves(more);
      PushData(fd, frame);
      PushMore(fd, more);
      return More;
    }

    /**
     `filter_data_`: a chunk of a connection. Its frames that are complete now come out, one alone as the result and
     several through the queue, and the rest waits; other connections are not touched.
     */
    method FilterData(fd: nat, buffer: seq<Byte>) returns (out: Outcome)
      requires Valid() && buffer != []
      modifies hash, ring, ring.queue
      ensures Valid() && (ring.queue == old(ring.queue) || fresh(ring.queue))
      ensures var p := Split(old(Pending(fd)) + buffer);
        && Pending(fd) == p.rest && Delivers(out, fd, p.frames, old(Queued()), Queued())
        && (out.Data? <==> |p.frames| == 1 && p.rest == [])
      ensures forall g :: g != fd ==> Pending(g) == old(Pending(g))
    {
      hide Split, PendingIn;
      var found, uc := FindUncomplete(fd);
      ghost var s := old(Pending(fd)) + buffer;
      if found {
        if uc.read < 0 {
          HeaderBytes(s);
          var hi: int, lo: int := uc.header, buffer[0];
          var size := hi * 256 + lo;
          assert size == SizeAt(s) && s == [size / 256, size % 256] + [] + buffer[1..];
          out := Complete(fd, size, [], buffer[1..]);
        } else {
          assert s == [uc.size / 256, uc.size % 256] + uc.data + buffer;
          out := Complete(fd, uc.size, uc.data, buffer);
        }
      } else {
        assert s == buffer;
        if |buffer| == 1 {
          SplitShort(s);
          Save(Uncomplete(fd, -1, buffer[0], 0, []));
          return Nothing;
        }
        HeaderBytes(s);
        assert s == [SizeAt(s) / 256, SizeAt(s) % 256] + [] + buffer[2..];
        out := Complete(fd, SizeAt(buffer), [], buffer[2..]);
      }
    }

    /** `close_uncomplete`: what is left of a frame of a connection that is closed is thrown away. */
    method CloseUncomplete(fd: nat)
      requires Valid()
      modifies hash
      ensures Valid() && Pending(fd) == [] && Queued() == old(Queued())
      ensures forall g :: g != fd ==> Pending(g) == old(Pending(g))
    {
      hide PendingIn;
      var _, _ := FindUncomplete(fd);
      PendingAbsent(hash[Hash(fd)], fd);
    }

    /** `lpop` */
    method PopPacket() returns (ok: bool, packet: Packet)
      requires Valid()
      modifies ring`head
      ensures Valid() && ok == (old(Queued()) != [])
      ensures if ok then [packet] + Queued() == old(Queued()) else Queued() == []
    {
      ok, packet := ring.Pop(Packet(0, []));
    }
  }

  /** What a filter call has handed out and queued, for the frames that are complete now. */
  ghost predicate Delivers(out: Outcome, fd: nat, frames: seq<seq<Byte>>, before: seq<Packet>, after: seq<Packet>) {
    match out
    case Nothing => frames == [] && after == before
    case Data(p) => frames == [p.data] && p.id == fd && after == before
    case More => frames != [] && after == before + Tagged(fd, frames)
  }

  lemma SizeOf(size: nat, body: seq<Byte>)
    requires size < LIMIT
    ensures SizeAt([size / 256, size % 256] + body) == size
  {
  }

  /** A stream without a complete frame is all left over. */
  lemma NoFrameLeaves(s: seq<Byte>)
    ensures Split(s).frames == [] ==> Split(s).rest == s
  {
  }

  // ----- whole runs -----

  /** The packets that frames stand for. */
  ghost predicate InRange(hs: seq<Handed>, ops: seq<Op>) {
    forall k :: 0 <= k < |hs| ==> hs[k].idx < |Frames(ops, hs[k].fd)|
  }

  ghost function Packets(hs: seq<Handed>, ops: seq<Op>): seq<Packet>
    requires InRange(hs, ops)
  {
    seq(|hs|, k requires 0 <= k < |hs| => Packet(hs[k].fd, Frames(ops, hs[k].fd)[hs[k].idx]))
  }

  /** A frame once complete stays what it is. */
  lemma FramesStay(ops: seq<Op>, op: Op, fd: nat)
    ensures Frames(ops, fd) <= Frames(ops + [op], fd)
  {
    FramesSnoc(ops, op, fd);
  }

  lemma PacketsStay(hs: seq<Handed>, ops: seq<Op>, op: Op)
    requires InRange(hs, ops)
    ensures InRange(hs, ops + [op]) && Packets(hs, ops + [op]) == Packets(hs, ops)
  {
    hide Split, Stream, Earlier;
    forall k | 0 <= k < |hs| ensures hs[k].idx < |Frames(ops + [op], hs[k].fd)| && Frames(ops + [op], hs[k].fd)[hs[k].idx] == Frames(ops, hs[k].fd)[hs[k].idx] {
      FramesStay(ops, op, hs[k].fd);
    }
  }

  /** The filter and what it has handed out agree with the schedule. */
  ghost predicate Follows(f: Filter, log: seq<Packet>, ops: seq<Op>)
    requires f.Valid()
    reads f, f.hash, f.ring, f.ring.queue
  {
    var w := Run(ops);
    && InRange(w.log, ops) && InRange(w.queue, ops)
    && log == Packets(w.log, ops) && f.Queued() == Packets(w.queue, ops)
    && forall fd :: f.Pending(fd) == Rest(ops, fd)
  }

  /** New frames of a connection, as packets. */
  lemma NewPackets(ops: seq<Op>, op: Op)
    requires op.Chunk?
    ensures var n, all, p := |Frames(ops, op.fd)|, ops + [op], Split(Rest(ops, op.fd) + op.data);
      && |Frames(all, op.fd)| == n + |p.frames|
      && InRange(Numbered(op.fd, n, n + |p.frames|), all)
      && Packets(Numbered(op.fd, n, n + |p.frames|), all) == Tagged(op.fd, p.frames)
      && (Direct(all, op.fd) <==> |p.frames| == 1 && p.rest == [])
  {
    hide Split, Stream, Earlier;
    FramesSnoc(ops, op, op.fd);
    assert (ops + [op])[..|ops|] == ops;
  }

  lemma PacketsConcat(a: seq<Handed>, b: seq<Handed>, ops: seq<Op>)
    requires InRange(a, ops) && InRange(b, ops)
    ensures InRange(a + b, ops) && Packets(a + b, ops) == Packets(a, ops) + Packets(b, ops)
  {
  }

  /** One chunk: the schedule after it is what the filter and its caller have. */
  lemma ChunkFollows(ops: seq<Op>, op: Op, log: seq<Packet>, queued: seq<Packet>, out: Outcome, log': seq<Packet>, queued': seq<Packet>)
    requires op.Chunk? && InRange(Run(ops).log, ops) && InRange(Run(ops).queue, ops)
    requires log == Packets(Run(ops).log, ops) && queued == Packets(Run(ops).queue, ops)
    requires var p := Split(Rest(ops, op.fd) + op.data);
      Delivers(out, op.fd, p.frames, queued, queued') && (out.Data? <==> |p.frames| == 1 && p.rest == [])
    requires log' == if out.Data? then log + [out.packet] else log
    ensures var all := ops + [op]; var w := Run(all);
      InRange(w.log, all) && InRange(w.queue, all) && log' == Packets(w.log, all) && queued' == Packets(w.queue, all)
  {
    hide Split, Rest, Run, Frames, Direct, InRange, Packets;
    var w, all, n := Run(ops), ops + [op], |Frames(ops, op.fd)|;
    var p := Split(Rest(ops, op.fd) + op.data);
    var added := Numbered(op.fd, n, n + |p.frames|);
    RunSnoc(ops, op);
    NewPackets(ops, op);
    PacketsStay(w.log, ops, op);
    PacketsStay(w.queue, ops, op);
    if out.Data? {
      assert added == [Handed(op.fd, n)] && Tagged(op.fd, p.frames) == [out.packet];
      PacketsConcat(w.log, added, all);
    } else {
      PacketsConcat(w.queue, added, all);
      assert out.Nothing? ==> Tagged(op.fd, p.frames) == [];
    }
  }

  /** The end of a connection changes nothing of what has been handed out or is queued. */
  lemma CloseFollows(ops: seq<Op>, op: Op)
    requires op.Close? && InRange(Run(ops).log, ops) && InRange(Run(ops).queue, ops)
    ensures var all := ops + [op]; var w := Run(all);
      && InRange(w.log, all) && InRange(w.queue, all)
      && Packets(w.log, all) == Packets(Run(ops).log, ops) && Packets(w.queue, all) == Packets(Run(ops).queue, ops)
  {
    hide Split, Rest, Run, Frames;
    RunSnoc(ops, op);
    PacketsStay(Run(ops).log, ops, op);
    PacketsStay(Run(ops).queue, ops, op);
  }

  /** One pop. */
  lemma PopFollows(ops: seq<Op>, log: seq<Packet>, queued: seq<Packet>, ok: bool, packet: Packet, queued': seq<Packet>)
    requires InRange(Run(ops).log, ops) && InRange(Run(ops).queue, ops)
    requires log == Packets(Run(ops).log, ops) && queued == Packets(Run(ops).queue, ops) && ok == (queued != [])
    requires if ok then [packet] + queued' == queued else queued' == []
    ensures var all := ops + [Pop]; var w := Run(all);
      && InRange(w.log, all) && InRange(w.queue, all) && queued' == Packets(w.queue, all)
      && (if ok then log + [packet] else log) == Packets(w.log, all)
  {
    hide Split, Rest, Run, Frames;
    var w, all := Run(ops), ops + [Pop];
    RunSnoc(ops, Pop);
    PacketsStay(w.log, ops, Pop);
    PacketsStay(w.queue, ops, Pop);
    if ok {
      assert w.queue == [w.queue[0]] + w.queue[1..];
      PacketsConcat([w.queue[0]], w.queue[1..], all);
      PacketsConcat(w.log, [w.queue[0]], all);
      assert packet == queued[0] && queued' == queued[1..];
    } else {
      assert w.queue == [];
    }
  }

  // ----- what a connection gets -----

  /** The data of the packets of one connection. */
  function Received(packets: seq<Packet>, fd: nat): seq<seq<Byte>> {
    if packets == [] then []
    else
      var last := packets[|packets| - 1];
      Received(packets[..|packets| - 1], fd) + (if last.id == fd then [last.data] else [])
  }

  /** The frames with the given numbers. */
  ghost function Pick(frames: seq<seq<Byte>>, numbers: seq<nat>): seq<seq<Byte>>
    requires AllBelow(numbers, |frames|)
  {
    seq(|numbers|, k requires 0 <= k < |numbers| => frames[numbers[k]])
  }

  lemma {:induction false} ReceivedPick(hs: seq<Handed>, ops: seq<Op>, fd: nat)
    requires InRange(hs, ops)
    ensures AllBelow(Numbers(hs, fd), |Frames(ops, fd)|)
    ensures Received(Packets(hs, ops), fd) == Pick(Frames(ops, fd), Numbers(hs, fd))
  {
    hide Split, Frames;
    if hs != [] {
      var front := hs[..|hs| - 1];
      ReceivedPick(front, ops, fd);
      assert Packets(hs, ops)[..|hs| - 1] == Packets(front, ops);
    }
  }

  predicate AllBelow(numbers: seq<nat>, n: nat) { forall k :: 0 <= k < |numbers| ==> numbers[k] < n }

  function Cut<T>(s: seq<T>, j: nat): seq<T>
    requires j < |s|
  {
    s[..j] + s[j + 1..]
  }

  lemma CutOne<T>(s: seq<T>, j: nat)
    requires j < |s|
    ensures multiset(s) == multiset{s[j]} + multiset(Cut(s, j))
  {
    assert s == s[..j] + [s[j]] + s[j + 1..];
  }

  lemma CutPick(frames: seq<seq<Byte>>, s: seq<nat>, j: nat)
    requires j < |s| && AllBelow(s, |frames|)
    ensures AllBelow(Cut(s, j), |frames|)
    ensures multiset(Pick(frames, s)) == multiset{frames[s[j]]} + multiset(Pick(frames, Cut(s, j)))
  {
    CutOne(Pick(frames, s), j);
    assert Pick(frames, Cut(s, j)) == Cut(Pick(frames, s), j);
  }

  lemma SameElements(a: seq<nat>, b: seq<nat>, k: nat) returns (j: nat)
    requires multiset(a) == multiset(b) && k < |a|
    ensures j < |b| && b[j] == a[k]
  {
    assert a[k] in multiset(a);
    j :| 0 <= j < |b| && b[j] == a[k];
  }

  /** Picking by the same numbers in another order picks the same frames. */
  lemma {:induction false} PickSame(frames: seq<seq<Byte>>, a: seq<nat>, b: seq<nat>)
    requires AllBelow(b, |frames|) && multiset(a) == multiset(b)
    ensures AllBelow(a, |frames|) && multiset(Pick(frames, a)) == multiset(Pick(frames, b))
    decreases |a|
  {
    hide Cut, Pick;
    CountSame(a, b);
    forall k | 0 <= k < |a| ensures a[k] < |frames| {
      var j := SameElements(a, b, k);
    }
    if a == [] {
      assert a == b;
    } else {
      var j := SameElements(a, b, 0);
      CutOne(a, 0);
      CutOne(b, j);
      CutPick(frames, a, 0);
      CutPick(frames, b, j);
      assert |Cut(a, 0)| < |a| by { CutShorter(a, 0); }
      assert multiset(Cut(a, 0)) == multiset(a) - multiset{a[0]} && multiset(Cut(b, j)) == multiset(b) - multiset{a[0]};
      PickSame(frames, Cut(a, 0), Cut(b, j));
    }
  }

  lemma CutShorter<T>(s: seq<T>, j: nat)
    requires j < |s|
    ensures |Cut(s, j)| == |s| - 1
  {
  }

  lemma {:induction false} RunInRange(ops: seq<Op>)
    ensures InRange(Run(ops).log, ops) && InRange(Run(ops).queue, ops)
  {
    hide Split, Rest, Run, Frames;
    if ops == [] {
      EmptyRun(0);
    } else {
      var before, op := ops[..|ops| - 1], ops[|ops| - 1];
      assert ops == before + [op];
      RunInRange(before);
      RunSnoc(before, op);
      PacketsStay(Run(before).log, before, op);
      PacketsStay(Run(before).queue, before, op);
      if op.Chunk? { NewPackets(before, op); }
    }
  }

  /** Each complete frame of a connection is there once, and they are in order if none was overtaken. */
  ghost predicate Arrived(log: seq<Packet>, queued: seq<Packet>, ops: seq<Op>) {
    forall fd ::
      && multiset(Received(log, fd) + Received(queued, fd)) == multiset(Frames(ops, fd))
      && (fd !in Run(ops).overtaken ==> Received(log, fd) + Received(queued, fd) == Frames(ops, fd))
  }

  /**
   For every schedule the packets handed out and those in the queue carry each complete frame of a connection once, and
   in order if none was overtaken.
   */
  lemma FramesArrive(ops: seq<Op>, fd: nat)
    ensures InRange(Run(ops).log, ops) && InRange(Run(ops).queue, ops)
    ensures var got := Received(Packets(Run(ops).log, ops), fd) + Received(Packets(Run(ops).queue, ops), fd);
      && multiset(got) == multiset(Frames(ops, fd))
      && (fd !in Run(ops).overtaken ==> got == Frames(ops, fd))
  {
    hide Split, Rest, Run, Frames, Received, Numbers;
    var w, all := Run(ops), Frames(ops, fd);
    RunInRange(ops);
    ReceivedPick(w.log, ops, fd);
    ReceivedPick(w.queue, ops, fd);
    EveryFrameOnce(ops, fd);
    InOrder(ops, fd);
    PickSame(all, Out(w, fd), Upto(|all|));
    assert Pick(all, Upto(|all|)) == all;
    assert Pick(all, Out(w, fd)) == Pick(all, Numbers(w.log, fd)) + Pick(all, Numbers(w.queue, fd));
  }

  /** Frames packed by `lpack` and cut anywhere come out as they were packed, once the queue is empty. */
  lemma RoundTrip(ops: seq<Op>, fd: nat, frames: seq<seq<Byte>>)
    requires forall i :: 0 <= i < |frames| ==> |frames[i]| < LIMIT
    requires Earlier(ops, fd) == [] && Stream(ops, fd) == Encode(frames)
    requires Run(ops).queue == [] && fd !in Run(ops).overtaken
    ensures InRange(Run(ops).log, ops) && Received(Packets(Run(ops).log, ops), fd) == frames
  {
    hide Split, Stream, Earlier, Run, Encode, InRange;
    SplitEncode(frames);
    assert Frames(ops, fd) == [] + frames == frames;
    FramesArrive(ops, fd);
  }

  /**
   Any schedule of chunks and pops, with any interleaving of connections and any cut of their streams: what is handed
   out, directly or by pops, and what is left in the queue are exactly the frames that the schedule says. Every frame
   of a connection is there once, and they are in order if none was overtaken.
   */
  method Receive(ops: seq<Op>) returns (log: seq<Packet>, f: Filter)
    requires forall i :: 0 <= i < |ops| && ops[i].Chunk? ==> ops[i].data != []
    ensures f.Valid() && Follows(f, log, ops)
    ensures Arrived(log, f.Queued(), ops)
  {
    hide Split, PendingIn, Rest, Run, Frames, Packets, InRange, Delivers, Arrived;
    f := new Filter();
    log := [];
    NothingFollows(f);
    var i := 0;
    while i < |ops|
      invariant 0 <= i <= |ops| && f.Valid() && Follows(f, log, ops[..i])
      invariant fresh(f) && fresh(f.hash) && fresh(f.ring) && fresh(f.ring.queue)
    {
      ghost var before, queued, was := ops[..i], f.Queued(), log;
      assert ops[..i + 1] == before + [ops[i]];
      match ops[i] {
        case Chunk(fd, data) =>
          var out := f.FilterData(fd, data);
          if out.Data? { log := log + [out.packet]; }
          ChunkFollows(before, ops[i], was, queued, out, log, f.Queued());
        case Close(fd) =>
          f.CloseUncomplete(fd);
          CloseFollows(before, ops[i]);
        case Pop =>
          var ok, packet := f.PopPacket();
          if ok { log := log + [packet]; }
          PopFollows(before, was, queued, ok, packet, f.Queued());
      }
      forall fd: nat ensures f.Pending(fd) == Rest(ops[..i + 1], fd) {
        FramesSnoc(before, ops[i], fd);
      }
      i := i + 1;
    }
    assert ops[..|ops|] == ops;
    AllArrive(log, f.Queued(), ops);
  }

  lemma AllArrive(log: seq<Packet>, queued: seq<Packet>, ops: seq<Op>)
    requires InRange(Run(ops).log, ops) && InRange(Run(ops).queue, ops)
    requires log == Packets(Run(ops).log, ops) && queued == Packets(Run(ops).queue, ops)
    ensures Arrived(log, queued, ops)
  {
    hide InRange, Packets, Run, Frames, Received;
    forall fd: nat
      ensures multiset(Received(log, fd) + Received(queued, fd)) == multiset(Frames(ops, fd))
      ensures fd !in Run(ops).overtaken ==> Received(log, fd) + Received(queued, fd) == Frames(ops, fd)
    {
      FramesArrive(ops, fd);
    }
  }

  lemma NothingFollows(f: Filter)
    requires f.Valid() && f.Queued() == [] && forall fd :: f.Pending(fd) == []
    ensures Follows(f, [], [])
  {
    EmptyRun(0);
    SplitShort([]);
  }
}
