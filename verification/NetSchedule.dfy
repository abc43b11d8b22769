/**
 What comes out of the packet filter for any schedule of chunks and pops, frame by frame: a chunk that completes exactly
 one frame and nothing else hands it out at once, other frames go through the queue.
 */
module NetSchedule {

  import opened Basics
  import opened NetFrames

  /** A chunk of a connection given to the filter, the end of a connection, or a pop of the queue. */
  datatype Op = Chunk(fd: nat, data: seq<Byte>) | Close(fd: nat) | Pop

  /** All that a connection has sent since it was opened. */
  function Stream(ops: seq<Op>, fd: nat): seq<Byte> {
    if ops == [] then []
    else
      var last, before := ops[|ops| - 1], Stream(ops[..|ops| - 1], fd);
      if last.Chunk? && last.fd == fd then before + last.data
      else if last.Close? && last.fd == fd then []
      else before
  }

  /** The complete frames of the earlier connections under the same number. */
  function Earlier(ops: seq<Op>, fd: nat): seq<seq<Byte>> {
    if ops == [] then []
    else
      var last, ops' := ops[|ops| - 1], ops[..|ops| - 1];
      Earlier(ops', fd) + (if last.Close? && last.fd == fd then Split(Stream(ops', fd)).frames else [])
  }

  /** The complete frames of a connection, those of earlier ones under the same number first. */
  function Frames(ops: seq<Op>, fd: nat): seq<seq<Byte>> { Earlier(ops, fd) + Split(Stream(ops, fd)).frames }

  /** The part of a frame at the end of the stream. */
  function Rest(ops: seq<Op>, fd: nat): seq<Byte> { Split(Stream(ops, fd)).rest }

  /** Frame number `idx` of a connection. */
  datatype Handed = Handed(fd: nat, idx: nat)

  /** What is in the queue, what has been handed out so far, and the connections with a frame that overtook another. */
  datatype World = World(queue: seq<Handed>, log: seq<Handed>, overtaken: set<nat>)

  function Numbered(fd: nat, lo: nat, hi: nat): seq<Handed> {
    seq(if lo < hi then hi - lo else 0, i requires i >= 0 => Handed(fd, lo + i))
  }

  /** The numbers of the frames of one connection. */
  function Numbers(hs: seq<Handed>, fd: nat): seq<nat> {
    if hs == [] then []
    else
      var last := hs[|hs| - 1];
      Numbers(hs[..|hs| - 1], fd) + (if last.fd == fd then [last.idx] else [])
  }

  predicate Waiting(w: World, fd: nat) { Numbers(w.queue, fd) != [] }

  /** The last chunk completes one frame, and leaves nothing over. */
  predicate Direct(ops: seq<Op>, fd: nat)
    requires ops != []
  {
    |Frames(ops, fd)| == |Frames(ops[..|ops| - 1], fd)| + 1 && Rest(ops, fd) == []
  }

  function Run(ops: seq<Op>): World {
    if ops == [] then World([], [], {})
    else
      var w := Run(ops[..|ops| - 1]);
      match ops[|ops| - 1]
      case Chunk(fd, _) =>
        if Direct(ops, fd) then HandOut(w, Handed(fd, |Frames(ops[..|ops| - 1], fd)|))
        else w.(queue := w.queue + Numbered(fd, |Frames(ops[..|ops| - 1], fd)|, |Frames(ops, fd)|))
      case Close(_) => w
      case Pop => if w.queue == [] then w else w.(queue := w.queue[1..], log := w.log + [w.queue[0]])
  }

  function HandOut(w: World, f: Handed): World {
    w.(log := w.log + [f], overtaken := if Waiting(w, f.fd) then w.overtaken + {f.fd} else w.overtaken)
  }

  function Upto(n: nat): seq<nat> { seq(n, i requires i >= 0 => i) }

  // ----- streams and frames -----

  lemma StreamSnoc(ops: seq<Op>, op: Op, fd: nat)
    ensures Stream(ops + [op], fd) ==
      if op.Chunk? && op.fd == fd then Stream(ops, fd) + op.data
      else if op.Close? && op.fd == fd then []
      else Stream(ops, fd)
    ensures Earlier(ops + [op], fd) ==
      Earlier(ops, fd) + (if op.Close? && op.fd == fd then Split(Stream(ops, fd)).frames else [])
  {
    assert (ops + [op])[..|ops|] == ops;
  }

  /** What a further operation does to the frames of a connection. */
  lemma FramesSnoc(ops: seq<Op>, op: Op, fd: nat)
    ensures op.Chunk? && op.fd == fd ==>
      var p := Split(Rest(ops, fd) + op.data);
      Frames(ops + [op], fd) == Frames(ops, fd) + p.frames && Rest(ops + [op], fd) == p.rest
    ensures !(op.Chunk? && op.fd == fd) ==>
      && Frames(ops + [op], fd) == Frames(ops, fd)
      && Rest(ops + [op], fd) == if op.Close? && op.fd == fd then [] else Rest(ops, fd)
  {
    hide Split, Stream, Earlier;
    StreamSnoc(ops, op, fd);
    if op.Chunk? && op.fd == fd {
      SplitConcat(Stream(ops, fd), op.data);
    } else if op.Close? && op.fd == fd {
      SplitShort([]);
    }
  }

  // ----- numbers -----

  lemma NumbersSnoc(hs: seq<Handed>, h: Handed, fd: nat)
    ensures Numbers(hs + [h], fd) == Numbers(hs, fd) + (if h.fd == fd then [h.idx] else [])
  {
    assert (hs + [h])[..|hs|] == hs;
  }

  lemma {:induction false} NumbersConcat(a: seq<Handed>, b: seq<Handed>, fd: nat)
    ensures Numbers(a + b, fd) == Numbers(a, fd) + Numbers(b, fd)
  {
    hide Numbers;
    NumbersNone(fd);
    if b == [] {
      assert a + b == a && Numbers(a, fd) + [] == Numbers(a, fd);
    } else {
      var c, h := b[..|b| - 1], b[|b| - 1];
      assert a + b == (a + c) + [h] && b == c + [h];
      NumbersSnoc(a + c, h, fd);
      NumbersSnoc(c, h, fd);
      NumbersConcat(a, c, fd);
    }
  }

  lemma NumbersNone(fd: nat)
    ensures Numbers([], fd) == []
  {
  }

  lemma NumbersOne(h: Handed, fd: nat)
    ensures Numbers([h], fd) == if h.fd == fd then [h.idx] else []
  {
    hide Numbers;
    NumbersNone(fd);
    NumbersSnoc([], h, fd);
    assert [] + [h] == [h];
  }

  lemma {:induction false} NumbersNumbered(fd: nat, lo: nat, hi: nat, g: nat)
    requires lo <= hi
    ensures Numbers(Numbered(fd, lo, hi), g) == (if g == fd then Upto(hi)[lo..] else [])
    decreases hi
  {
    hide Numbers;
    NumbersNone(g);
    if lo == hi {
      assert Numbered(fd, lo, hi) == [];
    } else {
      NumbersNumbered(fd, lo, hi - 1, g);
      assert Numbered(fd, lo, hi) == Numbered(fd, lo, hi - 1) + [Handed(fd, hi - 1)];
      NumbersSnoc(Numbered(fd, lo, hi - 1), Handed(fd, hi - 1), g);
      assert Upto(hi) == Upto(hi - 1) + [hi - 1];
    }
  }

  lemma UptoGrows(n: nat, m: nat)
    requires n <= m
    ensures Upto(n) + Upto(m)[n..] == Upto(m)
  {
  }

  // ----- every frame, once -----

  /** The frames of a connection in the order in which they come out, those in the queue at the end. */
  function Out(w: World, fd: nat): seq<nat> { Numbers(w.log, fd) + Numbers(w.queue, fd) }

  /** One operation, seen from one connection. */
  lemma OutStep(ops: seq<Op>, op: Op, fd: nat)
    ensures var w, w', n, m := Run(ops), Run(ops + [op]), |Frames(ops, fd)|, |Frames(ops + [op], fd)|;
      && n <= m
      && (if op.Chunk? && op.fd == fd && Direct(ops + [op], fd)
          then m == n + 1 && Numbers(w'.log, fd) == Numbers(w.log, fd) + [n] && w'.queue == w.queue
            && (fd in w'.overtaken <==> fd in w.overtaken || Waiting(w, fd))
          else Out(w', fd) == Out(w, fd) + Upto(m)[n..] && (fd in w'.overtaken <==> fd in w.overtaken))
  {
    hide Numbers, Frames, Rest, Run;
    RunSnoc(ops, op);
    FramesSnoc(ops, op, fd);
    var w, n, m := Run(ops), |Frames(ops, fd)|, |Frames(ops + [op], fd)|;
    assert (ops + [op])[..|ops|] == ops;
    if op.Chunk? {
      if Direct(ops + [op], op.fd) {
        NumbersSnoc(w.log, Handed(op.fd, |Frames(ops, op.fd)|), fd);
        assert op.fd != fd ==> Upto(m)[n..] == [];
      } else {
        FramesSnoc(ops, op, op.fd);
        QueueMore(w, op.fd, |Frames(ops, op.fd)|, |Frames(ops + [op], op.fd)|, fd);
        assert op.fd != fd ==> Upto(m)[n..] == [];
      }
    } else {
      assert Upto(m)[n..] == [];
      if op.Pop? && w.queue != [] { PopOut(w, fd); }
    }
  }

  lemma RunSnoc(ops: seq<Op>, op: Op)
    ensures var w, all := Run(ops), ops + [op];
      Run(all) ==
        if op.Chunk? then
          (if Direct(all, op.fd) then HandOut(w, Handed(op.fd, |Frames(ops, op.fd)|))
           else w.(queue := w.queue + Numbered(op.fd, |Frames(ops, op.fd)|, |Frames(all, op.fd)|)))
        else if op.Close? || w.queue == [] then w else w.(queue := w.queue[1..], log := w.log + [w.queue[0]])
  {
    assert (ops + [op])[..|ops|] == ops;
  }

  lemma QueueMore(w: World, c: nat, n: nat, m: nat, fd: nat)
    requires n <= m
    ensures Out(w.(queue := w.queue + Numbered(c, n, m)), fd) == Out(w, fd) + (if fd == c then Upto(m)[n..] else [])
  {
    hide Numbers;
    NumbersConcat(w.queue, Numbered(c, n, m), fd);
    NumbersNumbered(c, n, m, fd);
  }

  lemma PopOut(w: World, fd: nat)
    requires w.queue != []
    ensures Out(w.(queue := w.queue[1..], log := w.log + [w.queue[0]]), fd) == Out(w, fd) + []
  {
    hide Numbers;
    NumbersSnoc(w.log, w.queue[0], fd);
    assert w.queue == [w.queue[0]] + w.queue[1..];
    NumbersConcat([w.queue[0]], w.queue[1..], fd);
    NumbersOne(w.queue[0], fd);
  }

  /** For every schedule, every complete frame of a connection has been handed out or is in the queue, once. */
  lemma {:induction false} EveryFrameOnce(ops: seq<Op>, fd: nat)
    ensures multiset(Out(Run(ops), fd)) == multiset(Upto(|Frames(ops, fd)|))
  {
    hide Numbers, Frames, Run;
    if ops == [] {
      NothingYet(fd);
    } else {
      var before, op := ops[..|ops| - 1], ops[|ops| - 1];
      assert ops == before + [op];
      EveryFrameOnce(before, fd);
      OutStep(before, op, fd);
      var w, n, m := Run(before), |Frames(before, fd)|, |Frames(ops, fd)|;
      UptoGrows(n, m);
      if op.Chunk? && op.fd == fd && Direct(ops, fd) {
        assert Upto(m) == Upto(n) + [n];
      }
    }
  }

  lemma NothingYet(fd: nat)
    ensures Out(Run([]), fd) == [] && Frames([], fd) == [] && Upto(0) == [] && Run([]).overtaken == {}
  {
  }

  /**
   For every schedule, the frames of a connection come out in order exactly when none of them has been handed out at
   once while another one was in the queue.
   */
  lemma {:induction false} InOrder(ops: seq<Op>, fd: nat)
    ensures fd !in Run(ops).overtaken <==> Out(Run(ops), fd) == Upto(|Frames(ops, fd)|)
  {
    hide Numbers, Frames, Run;
    if ops == [] {
      NothingYet(fd);
    } else {
      var before, op := ops[..|ops| - 1], ops[|ops| - 1];
      assert ops == before + [op];
      InOrder(before, fd);
      OutStep(before, op, fd);
      EveryFrameOnce(before, fd);
      var w, n, m := Run(before), |Frames(before, fd)|, |Frames(ops, fd)|;
      if op.Chunk? && op.fd == fd && Direct(ops, fd) {
        HandedOver(Numbers(w.log, fd), Numbers(w.queue, fd), n);
      } else {
        UptoGrows(n, m);
        SameFront(Out(w, fd), Upto(n), Upto(m)[n..]);
      }
    }
  }

  lemma SameFront(a: seq<nat>, b: seq<nat>, c: seq<nat>)
    ensures a + c == b + c <==> a == b
  {
    if a + c == b + c {
      assert |a| == |b|;
      assert a == (a + c)[..|a|] && b == (b + c)[..|b|];
    }
  }

  /** The next number between what is out and what waits: in order exactly if it was, and nothing waits. */
  lemma HandedOver(l: seq<nat>, q: seq<nat>, n: nat)
    requires multiset(l + q) == multiset(Upto(n))
    ensures (l + [n]) + q == Upto(n + 1) <==> q == [] && l + q == Upto(n)
  {
    assert Upto(n + 1) == Upto(n) + [n];
    if q == [] {
      assert (l + [n]) + q == l + [n] && l + q == l;
      SameFront(l, Upto(n), [n]);
    } else {
      var last := q[|q| - 1];
      assert last in multiset(l + q) by { assert (l + q)[|l + q| - 1] == last; }
      assert last in Upto(n);
      assert ((l + [n]) + q)[|l| + |q|] == last;
      CountSame(l + q, Upto(n));
      assert Upto(n + 1)[n] == n;
    }
  }

  lemma CountSame(a: seq<nat>, b: seq<nat>)
    requires multiset(a) == multiset(b)
    ensures |a| == |b|
  {
    assert |multiset(a)| == |a| && |multiset(b)| == |b|;
  }

  /** The condition of `InOrder`, read off the schedule. */
  lemma {:induction false} OvertakenExactly(ops: seq<Op>, fd: nat)
    ensures fd in Run(ops).overtaken <==>
      exists i: nat :: i < |ops| && Overtakes(ops, i, fd)
  {
    hide Numbers, Frames, Run;
    if ops == [] {
      NothingYet(fd);
    } else {
      var before, op := ops[..|ops| - 1], ops[|ops| - 1];
      assert ops == before + [op];
      OvertakenExactly(before, fd);
      OutStep(before, op, fd);
      forall i: nat | i < |before| ensures Overtakes(ops, i, fd) == Overtakes(before, i, fd) {
        assert ops[..i] == before[..i] && ops[..i + 1] == before[..i + 1];
      }
      assert ops[..|ops|] == ops;
      assert Overtakes(ops, |before|, fd) <==> op.Chunk? && op.fd == fd && Direct(ops, fd) && Waiting(Run(before), fd);
    }
  }

  /** Operation `i` hands a frame out at once while a frame of that connection is in the queue. */
  predicate Overtakes(ops: seq<Op>, i: nat, fd: nat)
    requires i < |ops|
  {
    ops[i].Chunk? && ops[i].fd == fd && Direct(ops[..i + 1], fd) && Waiting(Run(ops[..i]), fd)
  }

  // ----- a schedule that is not in order -----

  /** Two frames in one chunk, and a third one in the next. */
  function TwoThenOne(): seq<Op> { [Chunk(5, [0, 1, 7, 0, 1, 8]), Chunk(5, [0, 1, 9])] }

  lemma SplitThree()
    ensures Split([]) == Parsed([], [])
    ensures Split([0, 1, 7, 0, 1, 8]) == Parsed([[7], [8]], [])
    ensures Split([0, 1, 7, 0, 1, 8, 0, 1, 9]) == Parsed([[7], [8], [9]], [])
  {
    hide Split;
    SplitShort([]);
    SplitOne([0, 1, 9], 1);
    assert [0, 1, 9][2..3] == [9] && [0, 1, 9][3..] == [];
    var a, b: seq<Byte> := [0, 1, 8], [0, 1, 8, 0, 1, 9];
    SplitOne(a, 1);
    assert a[2..3] == [8] && a[3..] == [];
    SplitOne(b, 1);
    assert b[2..3] == [8] && b[3..] == [0, 1, 9];
    var c, d: seq<Byte> := [0, 1, 7, 0, 1, 8], [0, 1, 7, 0, 1, 8, 0, 1, 9];
    SplitOne(c, 1);
    assert c[2..3] == [7] && c[3..] == a;
    SplitOne(d, 1);
    assert d[2..3] == [7] && d[3..] == b;
  }

  /** Without a pop in between, the third frame comes out first. */
  lemma ThirdFirst()
    ensures Run(TwoThenOne()) == World([Handed(5, 0), Handed(5, 1)], [Handed(5, 2)], {5})
    ensures Run(TwoThenOne() + [Pop, Pop]).log == [Handed(5, 2), Handed(5, 0), Handed(5, 1)]
  {
    hide Split, Run, Stream, Numbers, Earlier;
    SplitThree();
    var c, d := Chunk(5, [0, 1, 7, 0, 1, 8]), Chunk(5, [0, 1, 9]);
    EmptyRun(5);
    assert [] + [c] == [c] && [c] + [d] == TwoThenOne();
    StreamSnoc([], c, 5);
    StreamSnoc([c], d, 5);
    assert Earlier([c], 5) == [] && Earlier([c, d], 5) == [];
    assert Stream([c], 5) == [0, 1, 7, 0, 1, 8] && Stream([c, d], 5) == [0, 1, 7, 0, 1, 8, 0, 1, 9];
    assert [c][..0] == [] && [c, d][..1] == [c];
    RunSnoc([], c);
    assert Numbered(5, 0, 2) == [Handed(5, 0), Handed(5, 1)];
    RunSnoc([c], d);
    NumbersSnoc([Handed(5, 0)], Handed(5, 1), 5);
    assert [Handed(5, 0)] + [Handed(5, 1)] == [Handed(5, 0), Handed(5, 1)];
    RunSnoc(TwoThenOne(), Pop);
    RunSnoc(TwoThenOne() + [Pop], Pop);
    assert TwoThenOne() + [Pop] + [Pop] == TwoThenOne() + [Pop, Pop];
  }

  lemma EmptyRun(fd: nat)
    ensures Run([]) == World([], [], {}) && Stream([], fd) == [] && Earlier([], fd) == []
  {
  }
}
