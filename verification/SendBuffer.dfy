/**
 The send buffers of a TCP socket in `socket_server.c`: two lists of packages, and a kernel that may take any part of
 what it is offered.
 */
module SendBuffer {

  import opened Basics

  datatype Package = Package(data: seq<Byte>, low: bool)

  /** `struct write_buffer`: a package of which the first `sent` bytes are written. */
  datatype Buffer = Buffer(pkg: Package, sent: nat)

  /** What a call of `write` may answer. */
  datatype Reply = Wrote(n: nat) | Again | Interrupted | Failed

  predicate Fits(b: Buffer) { b.sent <= |b.pkg.data| }

  // ----- packages, in order -----

  function Flat(ps: seq<Package>): seq<Byte> {
    if ps == [] then [] else Flat(ps[..|ps| - 1]) + ps[|ps| - 1].data
  }

  function Packages(list: seq<Buffer>): seq<Package> {
    seq(|list|, i requires 0 <= i < |list| => list[i].pkg)
  }

  /** The packages of one priority. */
  function Only(ps: seq<Package>, low: bool): seq<Package> {
    if ps == [] then []
    else Only(ps[..|ps| - 1], low) + (if ps[|ps| - 1].low == low then [ps[|ps| - 1]] else [])
  }

  /** The bytes that are not written yet. */
  function Unsent(list: seq<Buffer>): int {
    if list == [] then 0
    else Unsent(list[..|list| - 1]) + |list[|list| - 1].pkg.data| - list[|list| - 1].sent
  }

  lemma FlatSnoc(ps: seq<Package>, p: Package)
    ensures Flat(ps + [p]) == Flat(ps) + p.data
  {
    assert (ps + [p])[..|ps|] == ps;
  }

  lemma OnlySnoc(ps: seq<Package>, p: Package, low: bool)
    ensures Only(ps + [p], low) == Only(ps, low) + (if p.low == low then [p] else [])
  {
    assert (ps + [p])[..|ps|] == ps;
  }

  lemma {:induction false} OnlyConcat(a: seq<Package>, b: seq<Package>, low: bool)
    ensures Only(a + b, low) == Only(a, low) + Only(b, low)
  {
    if b == [] {
      assert a + b == a;
    } else {
      var c, p := b[..|b| - 1], b[|b| - 1];
      assert a + b == (a + c) + [p];
      OnlySnoc(a + c, p, low);
      OnlyConcat(a, c, low);
    }
  }

  lemma UnsentSnoc(list: seq<Buffer>, b: Buffer)
    ensures Unsent(list + [b]) == Unsent(list) + |b.pkg.data| - b.sent
  {
    assert (list + [b])[..|list|] == list;
  }

  lemma {:induction false} UnsentCons(b: Buffer, list: seq<Buffer>)
    ensures Unsent([b] + list) == |b.pkg.data| - b.sent + Unsent(list)
  {
    if list == [] {
      assert [b] + list == [b] && [b][..0] == [];
    } else {
      var l, c := list[..|list| - 1], list[|list| - 1];
      assert [b] + list == ([b] + l) + [c];
      UnsentSnoc([b] + l, c);
      UnsentCons(b, l);
    }
  }

  /** What is done, and what is in the two lists, is what was submitted, priority by priority. */
  ghost predicate Ordered(d: seq<Package>, h: seq<Package>, l: seq<Package>, s: seq<Package>, p: bool) {
    Only(d, p) + Only(h, p) + Only(l, p) == Only(s, p)
  }

  // ----- what the lists and the wire say of each other -----

  /** All but the first buffer are untouched. */
  predicate Tidy(list: seq<Buffer>) {
    (forall i :: 0 <= i < |list| ==> Fits(list[i])) && forall i :: 1 <= i < |list| ==> list[i].sent == 0
  }

  /** The part of the first package that is on the wire. */
  function Begun(list: seq<Buffer>): seq<Byte>
    requires Tidy(list)
  {
    if list == [] then [] else list[0].pkg.data[..list[0].sent]
  }

  /** How a list fares with the kernel: bytes taken, replies left, buffers left, and whether the connection failed. */
  datatype Offered = Offered(n: nat, left: seq<Reply>, rest: seq<Buffer>, closed: bool)

  /** The kernel answers one `write` after the other, each for what is left of the first buffer. */
  function Offer(list: seq<Buffer>, replies: seq<Reply>): Offered
    requires Tidy(list)
    decreases |replies|
  {
    if list == [] || replies == [] then Offered(0, replies, list, false)
    else
      var left := replies[1..];
      match replies[0]
      case Interrupted => Offer(list, left)
      case Again => Offered(0, left, list, false)
      case Failed => Offered(0, left, list, true)
      case Wrote(m) =>
        var b := list[0];
        var size := |b.pkg.data| - b.sent;
        if m < size then Offered(m, left, [b.(sent := b.sent + m)] + list[1..], false)
        else var o := Offer(list[1..], left); o.(n := size + o.n)
  }

  /** How both lists fare. */
  datatype Both = Both(n: nat, high: seq<Buffer>, low: seq<Buffer>, closed: bool)

  /** The high list first, and the low list once the high list is empty; a low package that was begun is raised. */
  function OfferBoth(high: seq<Buffer>, low: seq<Buffer>, replies: seq<Reply>): Both
    requires Tidy(high) && Tidy(low)
  {
    var o := Offer(high, replies);
    if o.closed || o.rest != [] || low == [] then Both(o.n, o.rest, low, o.closed)
    else
      var l := Offer(low, o.left);
      if !l.closed && l.rest != [] && l.rest[0].sent != 0 then Both(o.n + l.n, [l.rest[0]], l.rest[1..], false)
      else Both(o.n + l.n, [], l.rest, l.closed)
  }

  /** `struct socket` */
  class Socket {
    var high: seq<Buffer>
    var low: seq<Buffer>
    var wbSize: int
    var wire: seq<Byte>                // every byte that the kernel has taken, in order
    ghost var done: seq<Package>       // the packages written to the end
    ghost var submitted: seq<Package>  // every package accepted for sending

    /** The wire carries whole packages back to back, the last one perhaps in part; `list` is where that one is. */
    ghost predicate OnWire(list: seq<Buffer>)
      reads this
    {
      Tidy(list) && wire == Flat(done) + Begun(list)
    }

    /** No package overtakes another one of its priority. */
    ghost predicate InOrder()
      reads this
    {
      forall p :: Ordered(done, Packages(high), Packages(low), submitted, p)
    }

    ghost predicate Valid()
      reads this
    {
      && OnWire(high) && Tidy(low) && (low != [] ==> low[0].sent == 0)
      && wbSize == Unsent(high) + Unsent(low)
      && (forall i :: 0 <= i < |low| ==> low[i].pkg.low)
      && (forall i :: 1 <= i < |high| ==> !high[i].pkg.low)
      && InOrder()
    }

    /** What holds even when the connection has failed: only then may the low list hold a package that was begun. */
    ghost predicate Sound()
      reads this
    {
      && Tidy(high) && Tidy(low) && (high != [] && low != [] ==> low[0].sent == 0)
      && wire == Flat(done) + (if high != [] then Begun(high) else Begun(low))
      && wbSize == Unsent(high) + Unsent(low)
      && InOrder()
    }

    /** All packages in the order in which they go over the wire. */
    ghost function Order(): seq<Package>
      reads this
    {
      done + Packages(high) + Packages(low)
    }

    constructor ()
      ensures Valid() && wire == [] && submitted == [] && high == [] && low == [] && Order() == []
    {
      high, low, wbSize, wire, done, submitted := [], [], 0, [], [], [];
    }

    /**
     `send_list_tcp` on one list. Some packages are written to the end, one perhaps in part, and the rest stays; the
     kernel answers as `replies` says, and has no more room when they run out.
     */
    method SendList(list: seq<Buffer>, replies: seq<Reply>) returns (rest: seq<Buffer>, left: seq<Reply>, closed: bool)
      requires OnWire(list)
      modifies this`wbSize, this`wire, this`done
      ensures OnWire(rest) && wbSize - Unsent(rest) == old(wbSize) - Unsent(list)
      ensures done + Packages(rest) == old(done) + Packages(list)
      ensures |rest| <= |list| && Packages(rest) == Packages(list)[|list| - |rest|..]
      ensures old(wire) <= wire && old(done) <= done
      ensures var o := Offer(list, replies); |wire| == |old(wire)| + o.n && left == o.left && rest == o.rest && closed == o.closed
    {
      hide Flat, Unsent, Begun, Packages, Offer;
      PackagesSize(list);
      rest, left, closed := list, replies, false;
      while rest != []
        invariant OnWire(rest) && wbSize - Unsent(rest) == old(wbSize) - Unsent(list)
        invariant done + Packages(rest) == old(done) + Packages(list)
        invariant |rest| <= |list| && Packages(rest) == Packages(list)[|list| - |rest|..]
        invariant old(wire) <= wire && old(done) <= done && !closed
        invariant var o, q := Offer(list, replies), Offer(rest, left);
          |wire| + q.n == |old(wire)| + o.n && q.left == o.left && q.rest == o.rest && q.closed == o.closed
        decreases |left|, |rest|
      {
        OfferStep(rest, left);
        if left == [] { return; }
        var reply := left[0];
        left := left[1..];
        match reply {
          case Interrupted => continue;
          case Again => return;
          case Failed => return rest, left, true;
          case Wrote(m) =>
            var b := rest[0];
            var size := |b.pkg.data| - b.sent;
            var n := if m < size then m else size;
            wbSize := wbSize - n;
            Write(rest, n);
            if n != size {
              rest := [b.(sent := b.sent + n)] + rest[1..];
              return;
            }
            Behead(Packages(list), |list| - |rest|, b.pkg, Packages(rest[1..]));
            rest := rest[1..];
        }
      }
      OfferStep(rest, left);
    }

    /** A `write` of which the kernel takes `n` bytes. */
    method Write(list: seq<Buffer>, n: nat)
      requires OnWire(list) && list != [] && list[0].sent + n <= |list[0].pkg.data|
      modifies this`wire, this`done
      ensures wire == old(wire) + list[0].pkg.data[list[0].sent..list[0].sent + n]
      ensures var b := list[0]; var size := |b.pkg.data| - b.sent;
        if n == size
        then OnWire(list[1..]) && done == old(done) + [b.pkg] && Unsent(list) == Unsent(list[1..]) + n
          && Packages(list) == [b.pkg] + Packages(list[1..])
        else
          var l := [b.(sent := b.sent + n)] + list[1..];
          OnWire(l) && done == old(done) && Unsent(list) == Unsent(l) + n && Packages(l) == Packages(list)
    {
      hide Flat, Unsent, Begun;
      var b := list[0];
      BegunMore(list, n);
      wire := wire + b.pkg.data[b.sent..b.sent + n];
      if n == |b.pkg.data| - b.sent {
        FlatSnoc(done, b.pkg);
        done := done + [b.pkg];
        NothingBegun(list);
      }
    }

    /** `raise_uncomplete`: the package that is partly on the wire goes to the high list. */
    method RaiseUncomplete()
      requires high == [] && low != []
      modifies this`high, this`low
      ensures high == [old(low)[0]] && low == old(low)[1..]
    {
      high := [low[0]];
      low := low[1..];
    }

    /** Step 1 of `send_buffer` */
    method SendHigh(replies: seq<Reply>) returns (left: seq<Reply>, closed: bool)
      requires Valid()
      modifies this`high, this`wbSize, this`wire, this`done
      ensures if closed then Sound() else Valid()
      ensures old(wire) <= wire && old(done) <= done && Order() == old(Order())
      ensures var o := Offer(old(high), replies); |wire| == |old(wire)| + o.n && left == o.left && high == o.rest && closed == o.closed
    {
      hide Flat, Unsent, Only, Ordered, Packages, Begun, Tidy, Offer;
      ghost var d, h, l := done, high, Packages(low);
      NoneBegun(low);
      var rest;
      rest, left, closed := SendList(high, replies);
      SuffixLow(h, rest);
      forall p: bool ensures Ordered(done, Packages(rest), l, submitted, p) {
        assert Ordered(d, Packages(h), l, submitted, p);
        OrderHigh(d, Packages(h), l, submitted, done, Packages(rest), p);
      }
      high := rest;
    }

    /** Steps 2 and 3 of `send_buffer` */
    method SendLow(replies: seq<Reply>) returns (closed: bool)
      requires Valid() && high == [] && low != []
      modifies this`high, this`low, this`wbSize, this`wire, this`done
      ensures if closed then Sound() else Valid()
      ensures old(wire) <= wire && old(done) <= done && Order() == old(Order())
      ensures var o := Offer(old(low), replies);
        && |wire| == |old(wire)| + o.n && closed == o.closed
        && if !closed && o.rest != [] && o.rest[0].sent != 0 then high == [o.rest[0]] && low == o.rest[1..] else high == [] && low == o.rest
    {
      hide Flat, Unsent, Only, Ordered, Packages, Begun, Tidy, Offer;
      ghost var d, l := done, low;
      NoneBegun(low);
      var rest, left;
      rest, left, closed := SendList(low, replies);
      SuffixAllLow(l, rest);
      forall p: bool ensures Ordered(done, Packages([]), Packages(rest), submitted, p) {
        assert Ordered(d, Packages(high), Packages(l), submitted, p);
        OrderLow(d, Packages(l), submitted, done, Packages(rest), p);
      }
      EmptyFlat();
      assert d + [] == d && done + [] == done;
      low := rest;
      if !closed { Raise(); }
    }

    /** Step 3 of `send_buffer` */
    method Raise()
      requires high == [] && OnWire(low) && wbSize == Unsent(low) && InOrder() && forall i :: 0 <= i < |low| ==> low[i].pkg.low
      modifies this`high, this`low
      ensures Valid() && Order() == old(Order())
      ensures if old(low) != [] && old(low)[0].sent != 0 then high == [old(low)[0]] && low == old(low)[1..] else high == [] && low == old(low)
    {
      hide Flat, Unsent, Only, Ordered;
      NoneUnsent();
      if low != [] && low[0].sent != 0 {
        ghost var l := Packages(low);
        RaiseUnsent(low);
        forall p: bool ensures Ordered(done, [l[0]], l[1..], submitted, p) {
          assert Packages([]) == [] && Ordered(done, Packages(high), l, submitted, p);
          OrderRaised(done, l, submitted, p);
        }
        assert Packages([low[0]]) == [l[0]] && Packages(low[1..]) == l[1..];
        RaiseUncomplete();
      }
    }

    /**
     `send_buffer`: the high list first, then the low list. The assertion at its start holds, since a low package that
     was begun has been raised.
     */
    method SendBuffers(replies: seq<Reply>) returns (closed: bool)
      requires Valid()
      modifies this`high, this`low, this`wbSize, this`wire, this`done
      ensures if closed then Sound() else Valid()
      ensures old(wire) <= wire && old(done) <= done && Order() == old(Order())
      ensures var o := OfferBoth(old(high), old(low), replies);
        |wire| == |old(wire)| + o.n && closed == o.closed && high == o.high && low == o.low
    {
      hide Flat, Unsent, Only, Ordered, Packages, Begun, Offer;
      assert low == [] || low[0].sent == 0;
      var left;
      left, closed := SendHigh(replies);
      if !closed && high == [] && low != [] { closed := SendLow(left); }
    }

    /** The end of `append_sendbuffer_` for a package behind others. */
    method Append(p: Package)
      requires Valid()
      modifies this`high, this`low, this`wbSize, this`submitted
      ensures Valid() && submitted == old(submitted) + [p] && wire == old(wire) && done == old(done)
      ensures p.low ==> high == old(high) && low == old(low) + [Buffer(p, 0)]
      ensures !p.low ==> high == old(high) + [Buffer(p, 0)] && low == old(low)
    {
      hide Flat, Unsent, Only, Ordered;
      var b := Buffer(p, 0);
      ghost var h, l, all := high, low, submitted;
      if p.low { low := low + [b]; } else { high := high + [b]; }
      wbSize := wbSize + |p.data|;
      submitted := submitted + [p];
      UnsentSnoc(if p.low then l else h, b);
      assert Packages((if p.low then l else h) + [b]) == Packages(if p.low then l else h) + [p];
      forall q: bool ensures Ordered(done, Packages(high), Packages(low), submitted, q) {
        assert Ordered(done, Packages(h), Packages(l), all, q);
        AppendOrder(done, Packages(h), Packages(l), all, p, q);
      }
    }

    /**
     `send_socket` for TCP. With both lists empty the package is offered to the kernel at once, and what it leaves goes
     to the high list whatever the priority; else it goes behind the others of its priority.
     */
    method Send(p: Package, connected: bool, reply: Reply) returns (closed: bool)
      requires Valid()
      modifies this
      ensures Valid() && old(wire) <= wire && old(done) <= done
      ensures closed <==> old(high) == [] && old(low) == [] && connected && reply.Failed?
      ensures submitted == if closed then old(submitted) else old(submitted) + [p]
      ensures var now, n := old(high) == [] && old(low) == [] && connected && !closed, AtOnce(p, reply);
        && wire == old(wire) + (if now then p.data[..n] else [])
        && (now ==> low == [] && high == if n == |p.data| then [] else [Buffer(p, n)])
        && (now ==> Order() == old(Order()) + [p])
        && (!now && !closed && p.low ==> high == old(high) && low == old(low) + [Buffer(p, 0)] && done == old(done))
        && (!now && !closed && !p.low ==> high == old(high) + [Buffer(p, 0)] && low == old(low) && done == old(done))
        && (closed ==> high == old(high) && low == old(low) && done == old(done))
    {
      closed := false;
      if high == [] && low == [] && connected {
        if reply.Failed? { return true; }
        SendNow(p, AtOnce(p, reply));
      } else {
        Append(p);
      }
    }

    method SendNow(p: Package, n: nat)
      requires Valid() && high == [] && low == [] && n <= |p.data|
      modifies this
      ensures Valid() && submitted == old(submitted) + [p]
      ensures old(done) <= done && wire == old(wire) + p.data[..n]
      ensures low == [] && high == (if n == |p.data| then [] else [Buffer(p, n)]) && Order() == old(Order()) + [p]
    {
      hide Flat, Unsent, Only, Ordered;
      var b := Buffer(p, 0);
      ghost var d, all := done, submitted;
      forall q: bool ensures Ordered(d, [p], [], all + [p], q) && Ordered(d + [p], [], [], all + [p], q) {
        assert Packages([]) == [] && Ordered(d, Packages(high), Packages(low), all, q);
        FirstOrder(d, all, p, q);
      }
      NoneUnsent();
      assert Begun([b]) == [];
      Write([b], n);
      assert [b][1..] == [] && Packages([]) == [] && Packages([Buffer(p, n)]) == [p];
      submitted := submitted + [p];
      if n != |p.data| {
        high := [Buffer(p, n)];
        wbSize := wbSize + |p.data| - n;
        assert [b.(sent := b.sent + n)] + [b][1..] == [Buffer(p, n)];
        UnsentCons(Buffer(p, n), []);
        assert [Buffer(p, n)] + [] == [Buffer(p, n)];
      }
    }
  }

  /** What the kernel takes of a package that is offered to it at once. */
  function AtOnce(p: Package, reply: Reply): (n: nat)
    ensures n <= |p.data|
  {
    if !reply.Wrote? then 0 else if reply.n < |p.data| then reply.n else |p.data|
  }

  lemma OfferStep(list: seq<Buffer>, replies: seq<Reply>)
    requires Tidy(list)
    ensures list == [] || replies == [] ==> Offer(list, replies) == Offered(0, replies, list, false)
    ensures list != [] && replies != [] ==>
      var left, reply := replies[1..], replies[0];
      var size := |list[0].pkg.data| - list[0].sent;
      && (reply.Interrupted? ==> Offer(list, replies) == Offer(list, left))
      && (reply.Again? || reply.Failed? ==> Offer(list, replies) == Offered(0, left, list, reply.Failed?))
      && (reply.Wrote? && reply.n < size ==>
            Offer(list, replies) == Offered(reply.n, left, [list[0].(sent := list[0].sent + reply.n)] + list[1..], false))
      && (reply.Wrote? && reply.n >= size ==>
            Tidy(list[1..]) && Offer(list, replies) == Offer(list[1..], left).(n := size + Offer(list[1..], left).n))
  {
  }

  /** Packages that went from a list to those done are still in order. */
  lemma OrderHigh(d: seq<Package>, h: seq<Package>, l: seq<Package>, s: seq<Package>, d': seq<Package>, h': seq<Package>, p: bool)
    requires Ordered(d, h, l, s, p) && d' + h' == d + h
    ensures Ordered(d', h', l, s, p)
  {
    hide Only;
    OnlyConcat(d, h, p);
    OnlyConcat(d', h', p);
  }

  lemma OrderLow(d: seq<Package>, l: seq<Package>, s: seq<Package>, d': seq<Package>, l': seq<Package>, p: bool)
    requires Ordered(d, Packages([]), l, s, p) && d' + l' == d + l
    ensures Ordered(d', Packages([]), l', s, p)
  {
    hide Only;
    assert Packages([]) == [];
    OnlyEmpty(p);
    OnlyConcat(d, l, p);
    OnlyConcat(d', l', p);
    assert Only(d, p) + [] == Only(d, p) && Only(d', p) + [] == Only(d', p);
  }

  lemma OrderRaised(d: seq<Package>, l: seq<Package>, s: seq<Package>, p: bool)
    requires Ordered(d, [], l, s, p) && l != []
    ensures Ordered(d, [l[0]], l[1..], s, p)
  {
    hide Only;
    OnlyEmpty(p);
    OnlyConcat([l[0]], l[1..], p);
    assert l == [l[0]] + l[1..];
    var x, a, b := Only(d, p), Only([l[0]], p), Only(l[1..], p);
    assert x + [] == x && x + (a + b) == x + a + b;
  }

  lemma OnlyEmpty(p: bool)
    ensures Only([], p) == []
  {
  }

  lemma NoneBegun(low: seq<Buffer>)
    requires Tidy(low) && (low != [] ==> low[0].sent == 0)
    ensures Tidy([]) && Begun([]) == [] == Begun(low) && Unsent([]) == 0
  {
  }

  lemma NoneUnsent()
    ensures Unsent([]) == 0
  {
  }

  lemma RaiseUnsent(low: seq<Buffer>)
    requires low != []
    ensures Unsent([low[0]]) + Unsent(low[1..]) == Unsent(low)
  {
    hide Unsent;
    assert low == [low[0]] + low[1..];
    UnsentCons(low[0], low[1..]);
    UnsentCons(low[0], []);
    assert [low[0]] + [] == [low[0]];
    NoneUnsent();
  }

  lemma FirstOrder(d: seq<Package>, s: seq<Package>, p: Package, q: bool)
    requires Ordered(d, [], [], s, q)
    ensures Ordered(d, [p], [], s + [p], q) && Ordered(d + [p], [], [], s + [p], q)
  {
    hide Only;
    OnlyEmpty(q);
    OnlySnoc(d, p, q);
    OnlySnoc(s, p, q);
    OnlySnoc([], p, q);
    var x, y := Only(d, q), if p.low == q then [p] else [];
    assert [] + [p] == [p] && [] + y == y && x + [] == x && x + [] + [] == x && x + y + [] == x + y && (x + y) + [] + [] == x + y;
  }

  lemma PackagesSize(list: seq<Buffer>)
    ensures |Packages(list)| == |list|
  {
  }

  lemma Behead(s: seq<Package>, k: nat, p: Package, t: seq<Package>)
    requires k <= |s| && s[k..] == [p] + t
    ensures t == s[k + 1..]
  {
    assert t == ([p] + t)[1..];
  }

  lemma SuffixLow(list: seq<Buffer>, rest: seq<Buffer>)
    requires |rest| <= |list| && Packages(rest) == Packages(list)[|list| - |rest|..]
    requires forall i :: 1 <= i < |list| ==> !list[i].pkg.low
    ensures forall i :: 1 <= i < |rest| ==> !rest[i].pkg.low
  {
    forall i | 1 <= i < |rest| ensures !rest[i].pkg.low {
      assert Packages(rest)[i] == Packages(list)[|list| - |rest| + i];
    }
  }

  lemma SuffixAllLow(list: seq<Buffer>, rest: seq<Buffer>)
    requires |rest| <= |list| && Packages(rest) == Packages(list)[|list| - |rest|..]
    requires forall i :: 0 <= i < |list| ==> list[i].pkg.low
    ensures forall i :: 0 <= i < |rest| ==> rest[i].pkg.low
  {
    forall i | 0 <= i < |rest| ensures rest[i].pkg.low {
      assert Packages(rest)[i] == Packages(list)[|list| - |rest| + i];
    }
  }

  lemma AppendOrder(d: seq<Package>, h: seq<Package>, l: seq<Package>, s: seq<Package>, p: Package, q: bool)
    requires Ordered(d, h, l, s, q) && (!p.low ==> forall i :: 0 <= i < |l| ==> l[i].low)
    ensures p.low ==> Ordered(d, h, l + [p], s + [p], q)
    ensures !p.low ==> Ordered(d, h + [p], l, s + [p], q)
  {
    hide Only;
    OnlySnoc(l, p, q);
    OnlySnoc(h, p, q);
    OnlySnoc(s, p, q);
    if !p.low && !q { OnlyNone(l); }
    var x, y, z, t := Only(d, q), Only(h, q), Only(l, q), if p.low == q then [p] else [];
    Tail(x, y, z, t);
  }

  lemma Tail(x: seq<Package>, y: seq<Package>, z: seq<Package>, t: seq<Package>)
    ensures x + y + (z + t) == x + y + z + t
    ensures z == [] || t == [] ==> x + (y + t) + z == x + y + z + t
  {
    if z == [] { assert x + (y + t) + z == x + y + z + t; }
    if t == [] { assert x + (y + t) + z == x + y + z + t; }
  }

  lemma {:induction false} OnlyNone(l: seq<Package>)
    requires forall i :: 0 <= i < |l| ==> l[i].low
    ensures Only(l, false) == []
  {
    if l != [] { OnlyNone(l[..|l| - 1]); }
  }

  /** A write moves bytes of the first package from those unsent to those begun. */
  lemma BegunMore(list: seq<Buffer>, n: nat)
    requires Tidy(list) && list != [] && list[0].sent + n <= |list[0].pkg.data|
    ensures var b := list[0];
      var l := [b.(sent := b.sent + n)] + list[1..];
      && Begun(list) + b.pkg.data[b.sent..b.sent + n] == b.pkg.data[..b.sent + n]
      && Tidy(l) && Begun(l) == b.pkg.data[..b.sent + n]
      && Unsent(list) == Unsent(l) + n && Unsent(list) == Unsent(list[1..]) + |b.pkg.data| - b.sent
      && Packages(l) == Packages(list) == [b.pkg] + Packages(list[1..])
  {
    hide Unsent;
    var b := list[0];
    var c := b.(sent := b.sent + n);
    assert list == [b] + list[1..];
    UnsentCons(b, list[1..]);
    UnsentCons(c, list[1..]);
  }

  lemma NothingBegun(list: seq<Buffer>)
    requires Tidy(list) && list != []
    ensures Tidy(list[1..]) && Begun(list[1..]) == []
    ensures list[0].pkg.data[..|list[0].pkg.data|] == list[0].pkg.data
  {
  }

  // ----- whole runs -----

  /** A package to send, or the news that the socket can take more. */
  datatype Op = SendOp(p: Package, connected: bool, reply: Reply) | WritableOp(replies: seq<Reply>)

  function Submitted(ops: seq<Op>): seq<Package> {
    if ops == [] then []
    else
      var last := ops[|ops| - 1];
      Submitted(ops[..|ops| - 1]) + (if last.SendOp? then [last.p] else [])
  }

  lemma SubmittedOn(ops: seq<Op>, i: nat)
    requires i < |ops|
    ensures Submitted(ops[..i + 1]) == Submitted(ops[..i]) + (if ops[i].SendOp? then [ops[i].p] else [])
  {
    assert ops[..i + 1][..i] == ops[..i];
  }

  /** What the operations have accepted; the one on which the connection fails accepts nothing. */
  function Accepted(ops: seq<Op>, closed: bool): seq<Package> {
    if closed && ops != [] then Submitted(ops[..|ops| - 1]) else Submitted(ops)
  }

  /** All packages in the order of the wire, and where the unfinished ones are. */
  datatype Line = Line(order: seq<Package>, high: seq<Buffer>, low: seq<Buffer>, closed: bool)

  ghost predicate Lined(x: Line) { Tidy(x.high) && Tidy(x.low) && |x.high| + |x.low| <= |x.order| }

  /** The packages that no later one can overtake: those done and those in the high list. */
  function Fixed(x: Line): seq<Package>
    requires |x.low| <= |x.order|
  {
    x.order[..|x.order| - |x.low|]
  }

  /** The packages in the low list. */
  function Waiting(x: Line): seq<Package>
    requires |x.low| <= |x.order|
  {
    x.order[|x.order| - |x.low|..]
  }

  predicate Direct(x: Line, op: Op) { op.SendOp? && x.high == [] && x.low == [] && op.connected }

  /** What an operation does: only a high package goes ahead of others, and these are the ones in the low list. */
  ghost function Served(x: Line, op: Op): Line
    requires Lined(x)
  {
    if x.closed then x
    else match op
      case WritableOp(replies) =>
        var o := OfferBoth(x.high, x.low, replies);
        x.(high := o.high, low := o.low, closed := o.closed)
      case SendOp(p, _, reply) =>
        if Direct(x, op) then
          if reply.Failed? then x.(closed := true)
          else
            var n := AtOnce(p, reply);
            x.(order := x.order + [p], high := if n == |p.data| then [] else [Buffer(p, n)])
        else if p.low then x.(order := x.order + [p], low := x.low + [Buffer(p, 0)])
        else x.(order := Fixed(x) + [p] + Waiting(x), high := x.high + [Buffer(p, 0)])
  }

  lemma {:induction false} OfferTidy(list: seq<Buffer>, replies: seq<Reply>)
    requires Tidy(list)
    ensures var o := Offer(list, replies); Tidy(o.rest) && |o.rest| <= |list|
    decreases |replies|
  {
    if list != [] && replies != [] {
      if replies[0].Interrupted? { OfferTidy(list, replies[1..]); }
      if replies[0].Wrote? && replies[0].n >= |list[0].pkg.data| - list[0].sent { OfferTidy(list[1..], replies[1..]); }
    }
  }

  lemma BothTidy(high: seq<Buffer>, low: seq<Buffer>, replies: seq<Reply>)
    requires Tidy(high) && Tidy(low)
    ensures var o := OfferBoth(high, low, replies);
      && Tidy(o.high) && Tidy(o.low) && |o.high| + |o.low| <= |high| + |low| && |o.low| <= |low|
  {
    hide Offer;
    var o := Offer(high, replies);
    OfferTidy(high, replies);
    OfferTidy(low, o.left);
  }

  lemma ServedLined(x: Line, op: Op)
    requires Lined(x)
    ensures Lined(Served(x, op)) && Fixed(x) <= Fixed(Served(x, op)) && (x.closed ==> Served(x, op) == x)
  {
    hide OfferBoth;
    if op.WritableOp? { BothTidy(x.high, x.low, op.replies); }
  }

  ghost function After(ops: seq<Op>): (x: Line)
    ensures Lined(x)
  {
    if ops == [] then Line([], [], [], false)
    else
      var x := After(ops[..|ops| - 1]);
      ServedLined(x, ops[|ops| - 1]);
      Served(x, ops[|ops| - 1])
  }

  lemma AfterOn(ops: seq<Op>, i: nat)
    requires i < |ops|
    ensures After(ops[..i + 1]) == Served(After(ops[..i]), ops[i])
  {
    assert ops[..i + 1][..i] == ops[..i];
  }

  // ----- everything goes out -----

  /** The kernel answers often enough, and takes all that it is offered. */
  predicate Ample(replies: seq<Reply>, n: nat, size: nat) {
    n <= |replies| && forall i :: 0 <= i < |replies| ==> replies[i].Wrote? && replies[i].n >= size
  }

  predicate NoLarger(list: seq<Buffer>, size: nat) { forall i :: 0 <= i < |list| ==> |list[i].pkg.data| <= size }

  lemma {:induction false} OfferAll(list: seq<Buffer>, replies: seq<Reply>, size: nat)
    requires Tidy(list) && NoLarger(list, size) && Ample(replies, |list|, size)
    ensures var o := Offer(list, replies);
      o.rest == [] && !o.closed && o.n == Unsent(list) && o.left == replies[|list|..]
    decreases |replies|
  {
    if list != [] {
      OfferAll(list[1..], replies[1..], size);
      assert list == [list[0]] + list[1..];
      UnsentCons(list[0], list[1..]);
      assert replies[1..][|list| - 1..] == replies[|list|..];
    }
  }

  /** If the kernel takes all that it is offered, both lists are written to the end. */
  lemma BothAll(high: seq<Buffer>, low: seq<Buffer>, replies: seq<Reply>, size: nat)
    requires Tidy(high) && Tidy(low) && NoLarger(high, size) && NoLarger(low, size) && Ample(replies, |high| + |low|, size)
    ensures var o := OfferBoth(high, low, replies); o.n == Unsent(high) + Unsent(low) && o.high == o.low == [] && !o.closed
  {
    hide Offer, Unsent;
    NoneUnsent();
    OfferAll(high, replies, size);
    OfferAll(low, replies[|high|..], size);
  }

  // ----- who comes first -----

  /** What is fixed stays fixed: no later package gets ahead of it. */
  lemma {:induction false} FixedStays(ops: seq<Op>, i: nat, j: nat)
    requires i <= j <= |ops|
    ensures Fixed(After(ops[..i])) <= Fixed(After(ops[..j])) <= After(ops[..j]).order
    decreases j
  {
    hide Served;
    if i < j {
      FixedStays(ops, i, j - 1);
      AfterOn(ops, j - 1);
      ServedLined(After(ops[..j - 1]), ops[j - 1]);
    }
  }

  /** A package offered to an empty connected socket, of whatever priority, precedes every later one. */
  lemma DirectFirst(ops: seq<Op>, i: nat, j: nat)
    requires i < j <= |ops| && Direct(After(ops[..i]), ops[i]) && !After(ops[..i]).closed && !ops[i].reply.Failed?
    ensures After(ops[..i]).order + [ops[i].p] <= After(ops[..j]).order
  {
    AfterOn(ops, i);
    FixedStays(ops, i + 1, j);
  }

  /** A high package precedes every later one, and those of the low list that wait when it is submitted. */
  lemma HighFirst(ops: seq<Op>, i: nat, j: nat)
    requires i < j <= |ops| && ops[i].SendOp? && !ops[i].p.low && !Direct(After(ops[..i]), ops[i]) && !After(ops[..i]).closed
    ensures var x := After(ops[..i]);
      && Fixed(x) + [ops[i].p] <= After(ops[..j]).order
      && After(ops[..i + 1]).order == Fixed(x) + [ops[i].p] + Waiting(x)
  {
    AfterOn(ops, i);
    FixedStays(ops, i + 1, j);
    assert Fixed(After(ops[..i + 1])) == Fixed(After(ops[..i])) + [ops[i].p];
  }

  /** A low package that is not direct goes behind all others. */
  lemma LowLast(ops: seq<Op>, i: nat)
    requires i < |ops| && ops[i].SendOp? && ops[i].p.low && !Direct(After(ops[..i]), ops[i]) && !After(ops[..i]).closed
    ensures After(ops[..i + 1]).order == After(ops[..i]).order + [ops[i].p]
    ensures Fixed(After(ops[..i + 1])) == Fixed(After(ops[..i]))
  {
    AfterOn(ops, i);
  }

  /** A low package that finds the socket empty comes before a high one behind it, also if the kernel takes nothing. */
  lemma LowBeforeHigh(x: Package, y: Package)
    requires x.low && !y.low && |x.data| > 0
    ensures After([SendOp(x, true, Again), SendOp(y, true, Again)]).order == [x, y]
  {
    var ops := [SendOp(x, true, Again), SendOp(y, true, Again)];
    assert ops[..0] == [] && ops[..2] == ops;
    AfterOn(ops, 0);
    AfterOn(ops, 1);
  }

  // ----- the bytes of a line -----

  lemma {:induction false} FlatConcat(a: seq<Package>, b: seq<Package>)
    ensures Flat(a + b) == Flat(a) + Flat(b)
  {
    hide Flat;
    EmptyFlat();
    if b == [] {
      assert a + b == a && Flat(a) + [] == Flat(a);
    } else {
      var c, p := b[..|b| - 1], b[|b| - 1];
      assert a + b == (a + c) + [p] && b == c + [p];
      FlatSnoc(a + c, p);
      FlatSnoc(c, p);
      FlatConcat(a, c);
      assert Flat(a) + (Flat(c) + p.data) == (Flat(a) + Flat(c)) + p.data;
    }
  }

  /** The bytes of a list, begun and unsent. */
  lemma {:induction false} FlatList(list: seq<Buffer>)
    requires Tidy(list)
    ensures Begun(list) <= Flat(Packages(list)) && |Flat(Packages(list))| == |Begun(list)| + Unsent(list)
  {
    if list != [] {
      var l, b := list[..|list| - 1], list[|list| - 1];
      assert Packages(list) == Packages(l) + [b.pkg];
      FlatSnoc(Packages(l), b.pkg);
      FlatList(l);
      if l == [] { assert Flat([]) + b.pkg.data == b.pkg.data; }
    }
  }

  /** The wire is the beginning of all packages in their order. */
  lemma OrderSound(s: Socket)
    requires s.Sound()
    ensures s.wire <= Flat(s.Order()) && s.wbSize == |Flat(s.Order())| - |s.wire|
    ensures forall p :: Only(s.Order(), p) == Only(s.submitted, p)
  {
    hide Flat, Only, Unsent, Packages;
    var d, h, l := s.done, Packages(s.high), Packages(s.low);
    FlatConcat(d + h, l);
    FlatConcat(d, h);
    FlatList(s.high);
    FlatList(s.low);
    EmptyFlat();
    forall p: bool ensures Only(s.Order(), p) == Only(s.submitted, p) {
      OnlyConcat(d + h, l, p);
      OnlyConcat(d, h, p);
      assert Ordered(d, h, l, s.submitted, p);
    }
  }

  lemma EmptyFlat()
    ensures Flat([]) == [] && Packages([]) == []
  {
  }

  /** The socket is where the line says. */
  ghost predicate InLine(s: Socket, x: Line)
    reads s
  {
    s.Order() == x.order && s.high == x.high && s.low == x.low
  }

  lemma NewLine(s: Socket)
    requires s.Order() == [] && s.high == [] && s.low == []
    ensures InLine(s, After([])) && !After([]).closed
  {
  }

  /** A package appended to one of the lists. */
  lemma AppendLine(d: seq<Package>, h: seq<Buffer>, l: seq<Buffer>, p: Package, x: Line)
    requires x.order == d + Packages(h) + Packages(l) && x.high == h && x.low == l
    ensures d + Packages(h) + Packages(l + [Buffer(p, 0)]) == x.order + [p]
    ensures d + Packages(h + [Buffer(p, 0)]) + Packages(l) == Fixed(x) + [p] + Waiting(x)
  {
    assert Packages(l + [Buffer(p, 0)]) == Packages(l) + [p];
    assert Packages(h + [Buffer(p, 0)]) == Packages(h) + [p];
    assert Fixed(x) == d + Packages(h) && Waiting(x) == Packages(l);
  }

  /**
   Any sequence of sends and partial writes on a new socket, up to a failure of the connection if there is one; `wires`
   is what has been written after each operation. What is written stays written. The packages go over the wire in the
   order of the line, which is the order of acceptance within each priority; the wire is the beginning of their bytes
   back to back, and `wb_size` is the number of bytes to come.
   */
  method Transmit(ops: seq<Op>) returns (wires: seq<seq<Byte>>, wbSize: int, closed: bool)
    ensures 1 <= |wires| <= |ops| + 1 && wires[0] == [] && (!closed ==> |wires| == |ops| + 1)
    ensures Growing(wires) && closed == After(ops).closed && wbSize == Unsent(After(ops).high) + Unsent(After(ops).low)
    ensures var order := After(ops).order;
      && wires[|wires| - 1] <= Flat(order) && wbSize == |Flat(order)| - |wires[|wires| - 1]|
      && forall p :: Only(order, p) == Only(Accepted(ops[..|wires| - 1], closed), p)
  {
    hide Flat, Only, Submitted, Ordered, Unsent, Begun, Tidy, Packages, Offer, OfferBoth, After, Served;
    var s := new Socket();
    wires, closed := [[]], false;
    NothingSubmitted();
    NewLine(s);
    assert ops[..0] == [];
    var i := 0;
    while i < |ops| && !closed
      invariant 0 <= i <= |ops| && fresh(s) && |wires| == i + 1 && wires[0] == [] && wires[i] == s.wire
      invariant Growing(wires)
      invariant (if closed then s.Sound() else s.Valid()) && s.submitted == Accepted(ops[..i], closed)
      invariant InLine(s, After(ops[..i])) && closed == After(ops[..i]).closed
      decreases |ops| - i
    {
      SubmittedOn(ops, i);
      assert ops[..i + 1][..i] == ops[..i];
      AfterOn(ops, i);
      closed := Operate(s, ops[i], After(ops[..i]));
      ValidSound(s);
      GrowsOn(wires, s.wire);
      wires := wires + [s.wire];
      i := i + 1;
    }
    wbSize := s.wbSize;
    ValidSound(s);
    OrderSound(s);
    assert ops[..|ops|] == ops;
    if closed { StaysClosed(ops, i, |ops|); }
  }

  /** One operation. */
  method Operate(s: Socket, op: Op, ghost x: Line) returns (closed: bool)
    requires s.Valid() && Lined(x) && InLine(s, x) && !x.closed
    modifies s
    ensures (if closed then s.Sound() else s.Valid()) && old(s.wire) <= s.wire
    ensures InLine(s, Served(x, op)) && closed == Served(x, op).closed
    ensures s.submitted == old(s.submitted) + if op.SendOp? && !closed then [op.p] else []
  {
    hide Flat, Only, Submitted, Ordered, Unsent, Begun, Tidy, Packages, Offer, OfferBoth;
    match op {
      case SendOp(p, connected, reply) =>
        AppendLine(s.done, s.high, s.low, p, x);
        closed := s.Send(p, connected, reply);
        ValidSound(s);
      case WritableOp(replies) => closed := s.SendBuffers(replies);
    }
  }

  lemma {:induction false} StaysClosed(ops: seq<Op>, i: nat, j: nat)
    requires i <= j <= |ops| && After(ops[..i]).closed
    ensures After(ops[..j]) == After(ops[..i])
    decreases j
  {
    hide Lined;
    if i < j {
      StaysClosed(ops, i, j - 1);
      AfterOn(ops, j - 1);
    }
  }

  lemma ValidSound(s: Socket)
    ensures s.Valid() ==> s.Sound()
  {
    if s.Valid() { NoneBegun(s.low); }
  }

  /** What is on the wire at one time is there at all later times. */
  ghost predicate Growing(wires: seq<seq<Byte>>) {
    forall i, j :: 0 <= i < j < |wires| ==> wires[i] <= wires[j]
  }

  lemma GrowsOn(wires: seq<seq<Byte>>, w: seq<Byte>)
    requires Growing(wires) && wires != [] && wires[|wires| - 1] <= w
    ensures Growing(wires + [w])
  {
    forall i | 0 <= i < |wires| ensures wires[i] <= w {
      if i < |wires| - 1 { assert wires[i] <= wires[|wires| - 1]; }
    }
  }

  lemma NothingSubmitted()
    ensures Submitted([]) == []
  {
  }
}
