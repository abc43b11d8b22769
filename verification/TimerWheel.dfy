/**
 The timing wheel of `skynet_timer.c` against a calendar of everything ever added.
 */
module TimerWheel {

  import opened TimerSlots

  /** `struct timer_node` with its event */
  datatype Node = Node(expire: int, handle: nat, session: int)

  /** A node and the tick, counted without wrap-around, at which it is due. */
  datatype Entry = Entry(due: nat, node: Node)

  /** The nodes of a list that carry one expiry value. */
  function With(s: seq<Node>, e: int): seq<Node> {
    if s == [] then []
    else With(s[..|s| - 1], e) + (if s[|s| - 1].expire == e then [s[|s| - 1]] else [])
  }

  /** The nodes due at a tick, in the order in which they were added. */
  function DueAt(added: seq<Entry>, d: nat): seq<Node> {
    if added == [] then []
    else
      var last := added[|added| - 1];
      DueAt(added[..|added| - 1], d) + (if last.due == d then [last.node] else [])
  }

  lemma WithSnoc(s: seq<Node>, x: Node, e: int)
    ensures With(s + [x], e) == With(s, e) + (if x.expire == e then [x] else [])
  {
    assert (s + [x])[..|s|] == s;
  }

  lemma DueSnoc(added: seq<Entry>, x: Entry, d: nat)
    ensures DueAt(added + [x], d) == DueAt(added, d) + (if x.due == d then [x.node] else [])
  {
    assert (added + [x])[..|added|] == added;
  }

  lemma {:induction false} WithHead(s: seq<Node>, e: int)
    requires s != []
    ensures With(s, e) == (if s[0].expire == e then [s[0]] else []) + With(s[1..], e)
  {
    if |s| > 1 {
      var t := s[..|s| - 1];
      WithHead(t, e);
      assert t[1..] == s[1..][..|s[1..]| - 1];
    }
  }

  lemma {:induction false} WithNone(s: seq<Node>, e: int)
    requires forall k :: 0 <= k < |s| ==> s[k].expire != e
    ensures With(s, e) == []
  {
    if s != [] { WithNone(s[..|s| - 1], e); }
  }

  lemma {:induction false} WithAll(s: seq<Node>, e: int)
    requires forall k :: 0 <= k < |s| ==> s[k].expire == e
    ensures With(s, e) == s
  {
    if s != [] { WithAll(s[..|s| - 1], e); }
  }

  lemma {:induction false} DueNone(added: seq<Entry>, d: nat)
    requires forall k :: 0 <= k < |added| ==> added[k].due != d
    ensures DueAt(added, d) == []
  {
    if added != [] { DueNone(added[..|added| - 1], d); }
  }

  // ----- the invariant of the wheel -----

  /** A node that may wait while the clock shows `c`. */
  predicate Waiting(x: Node, c: int, low: int) {
    IsTime(c) && IsTime(x.expire) && low <= Remaining(x.expire, c) < HALF
  }

  predicate Belongs(x: Node, c: int, s: int) { IsTime(c) && IsTime(x.expire) && SlotOf(x.expire, c) == s }

  /** Every node stands in the list that `add_node` would choose now. */
  ghost predicate Placed(w: seq<seq<Node>>, c: int, low: int) {
    && |w| == 512 && IsTime(c)
    && forall s, k :: 0 <= s < |w| && 0 <= k < |w[s]| ==> Waiting(w[s][k], c, low) && Belongs(w[s][k], c, s)
  }

  /** Together with the nodes in hand the wheel holds what is due at tick `d`. */
  ghost predicate Holds(w: seq<seq<Node>>, rest: seq<Node>, c: int, added: seq<Entry>, d: nat)
    requires |w| == 512 && IsTime(c)
  {
    With(w[SlotOf(d % WRAP, c)], d % WRAP) + With(rest, d % WRAP) == DueAt(added, d)
  }

  ghost predicate Agrees(w: seq<seq<Node>>, rest: seq<Node>, now: nat, low: nat, added: seq<Entry>) {
    && |w| == 512
    && (forall k :: 0 <= k < |added| ==> added[k].due < now + HALF)
    && forall d: nat :: now + low <= d < now + HALF ==> Holds(w, rest, now % WRAP, added, d)
  }

  lemma RemainingDue(now: nat, d: nat)
    requires now <= d <= now + HALF
    ensures Remaining(d % WRAP, now % WRAP) == d - now
  {
  }

  lemma TickNow(now: nat)
    ensures Tick(now % WRAP) == (now + 1) % WRAP
  {
  }

  /** A value that no node can carry. */
  lemma Absent(w: seq<seq<Node>>, c: int, low: int, s: int, e: int)
    requires Placed(w, c, low) && 0 <= s < 512
    requires IsTime(e) && (SlotOf(e, c) != s || !(low <= Remaining(e, c) < HALF))
    ensures With(w[s], e) == []
  {
    forall k | 0 <= k < |w[s]| ensures w[s][k].expire != e {
      assert Waiting(w[s][k], c, low) && Belongs(w[s][k], c, s);
    }
    WithNone(w[s], e);
  }

  // ----- the tick -----

  /** The wheel without the list that `timer_shift` takes, and that list. */
  function Emptied(w: seq<seq<Node>>, m: int): seq<seq<Node>>
    requires |w| == 512 && m < 512
  {
    if m < 0 then w else w[m := []]
  }

  function Taken(w: seq<seq<Node>>, m: int): seq<Node>
    requires |w| == 512 && m < 512
  {
    if m < 0 then [] else w[m]
  }

  lemma StillPlaced(w: seq<seq<Node>>, c: int)
    requires Placed(w, c, 1) && Moved(Tick(c)) < 512
    ensures Placed(Emptied(w, Moved(Tick(c))), Tick(c), 0)
  {
    var m, ct := Moved(Tick(c)), Tick(c);
    var v := Emptied(w, m);
    forall s, k | 0 <= s < |v| && 0 <= k < |v[s]| ensures Waiting(v[s][k], ct, 0) && Belongs(v[s][k], ct, s) {
      assert v[s] == w[s] && s != m;
      assert Waiting(w[s][k], c, 1) && Belongs(w[s][k], c, s);
      Stable(w[s][k].expire, c);
      RemainingTick(w[s][k].expire, c);
    }
  }

  lemma TakenWaiting(w: seq<seq<Node>>, c: int)
    requires Placed(w, c, 1) && Moved(Tick(c)) < 512
    ensures forall k :: 0 <= k < |Taken(w, Moved(Tick(c)))| ==> Waiting(Taken(w, Moved(Tick(c)))[k], Tick(c), 0)
  {
    var m := Moved(Tick(c));
    var rest := Taken(w, m);
    forall k | 0 <= k < |rest| ensures Waiting(rest[k], Tick(c), 0) {
      assert Waiting(w[m][k], c, 1);
      RemainingTick(w[m][k].expire, c);
    }
  }

  lemma StillHolds(w: seq<seq<Node>>, now: nat, added: seq<Entry>, d: nat)
    requires Placed(w, now % WRAP, 1) && Agrees(w, [], now, 1, added) && Moved(Tick(now % WRAP)) < 512
    requires now + 1 <= d < now + 1 + HALF
    ensures var m := Moved(Tick(now % WRAP)); Holds(Emptied(w, m), Taken(w, m), Tick(now % WRAP), added, d)
  {
    var c, ct, e := now % WRAP, Tick(now % WRAP), d % WRAP;
    var m := Moved(ct);
    RemainingDue(now, d);
    var s, s' := SlotOf(e, c), SlotOf(e, ct);
    var v, rest := Emptied(w, m), Taken(w, m);
    if d == now + HALF {
      DueNone(added, d);
      Absent(w, c, 1, s', e);
      if m >= 0 { Absent(w, c, 1, m, e); }
    } else {
      assert Holds(w, [], c, added, d);
      Stable(e, c);
      if s == m {
        if s' != s { Absent(w, c, 1, s', e); }
        assert With(v[s'], e) == [];
      } else if m >= 0 {
        Absent(w, c, 1, m, e);
      }
    }
  }

  lemma ShiftStarts(w: seq<seq<Node>>, now: nat, added: seq<Entry>)
    requires Placed(w, now % WRAP, 1) && Agrees(w, [], now, 1, added) && Moved(Tick(now % WRAP)) < 512
    ensures var m := Moved(Tick(now % WRAP));
      && Placed(Emptied(w, m), (now + 1) % WRAP, 0)
      && Agrees(Emptied(w, m), Taken(w, m), now + 1, 0, added)
      && forall k :: 0 <= k < |Taken(w, m)| ==> Waiting(Taken(w, m)[k], (now + 1) % WRAP, 0)
  {
    TickNow(now);
    StillPlaced(w, now % WRAP);
    TakenWaiting(w, now % WRAP);
    var m, ct := Moved(Tick(now % WRAP)), (now + 1) % WRAP;
    var v, rest := Emptied(w, m), Taken(w, m);
    forall d: nat | now + 1 <= d < now + 1 + HALF ensures Holds(v, rest, ct, added, d) {
      StillHolds(w, now, added, d);
    }
  }

  /** `add_node` */
  function Linked(w: seq<seq<Node>>, x: Node, c: int): seq<seq<Node>>
    requires |w| == 512 && IsTime(c) && IsTime(x.expire)
  {
    var s := SlotOf(x.expire, c);
    w[s := w[s] + [x]]
  }

  lemma LinkedPlaced(w: seq<seq<Node>>, x: Node, c: int, low: int)
    requires Placed(w, c, low) && Waiting(x, c, low)
    ensures Placed(Linked(w, x, c), c, low)
  {
    var v := Linked(w, x, c);
    forall s, k | 0 <= s < |v| && 0 <= k < |v[s]| ensures Waiting(v[s][k], c, low) && Belongs(v[s][k], c, s) {
      if k < |w[s]| { assert v[s][k] == w[s][k]; }
    }
  }

  /** Moving one node from hand to wheel. */
  lemma MoveOne(w: seq<seq<Node>>, rest: seq<Node>, now: nat, low: nat, added: seq<Entry>)
    requires Agrees(w, rest, now, low, added) && rest != [] && IsTime(rest[0].expire)
    ensures Agrees(Linked(w, rest[0], now % WRAP), rest[1..], now, low, added)
  {
    var x, c := rest[0], now % WRAP;
    var v := Linked(w, x, c);
    forall d: nat | now + low <= d < now + HALF ensures Holds(v, rest[1..], c, added, d) {
      assert Holds(w, rest, c, added, d);
      WithHead(rest, d % WRAP);
      WithSnoc(w[SlotOf(x.expire, c)], x, d % WRAP);
    }
  }

  /** A new node, in the wheel and in the calendar. */
  lemma AddOne(w: seq<seq<Node>>, x: Node, now: nat, due: nat, added: seq<Entry>)
    requires Agrees(w, [], now, 1, added) && now < due < now + HALF && x.expire == due % WRAP
    ensures Agrees(Linked(w, x, now % WRAP), [], now, 1, added + [Entry(due, x)])
  {
    var c := now % WRAP;
    var v := Linked(w, x, c);
    forall d: nat | now + 1 <= d < now + HALF ensures Holds(v, [], c, added + [Entry(due, x)], d) {
      assert Holds(w, [], c, added, d);
      DueSnoc(added, Entry(due, x), d);
      WithSnoc(w[SlotOf(x.expire, c)], x, d % WRAP);
      RemainingDue(now, d);
      RemainingDue(now, due);
    }
  }

  /** The near list of the present is what is due now. */
  lemma NearIsDue(w: seq<seq<Node>>, now: nat, added: seq<Entry>)
    requires Placed(w, now % WRAP, 0) && Agrees(w, [], now, 0, added)
    ensures w[now % WRAP % NEAR] == DueAt(added, now)
  {
    var c := now % WRAP;
    var near := c % NEAR;
    DueNow(c, c);
    forall k | 0 <= k < |w[near]| ensures w[near][k].expire == c {
      assert Belongs(w[near][k], c, near);
      DueNow(w[near][k].expire, c);
    }
    WithAll(w[near], c);
    assert Holds(w, [], c, added, now);
  }

  lemma OthersWait(w: seq<seq<Node>>, c: int)
    requires Placed(w, c, 0)
    ensures Placed(w[c % NEAR := []], c, 1)
  {
    var v := w[c % NEAR := []];
    forall s, k | 0 <= s < |v| && 0 <= k < |v[s]| ensures Waiting(v[s][k], c, 1) && Belongs(v[s][k], c, s) {
      assert s != c % NEAR && v[s] == w[s];
      assert Waiting(w[s][k], c, 0) && Belongs(w[s][k], c, s);
      DueNow(w[s][k].expire, c);
      NotNow(w[s][k].expire, c);
    }
  }

  lemma OthersHold(w: seq<seq<Node>>, now: nat, added: seq<Entry>)
    requires Agrees(w, [], now, 0, added)
    ensures Agrees(w[now % WRAP % NEAR := []], [], now, 1, added)
  {
    var c := now % WRAP;
    var v := w[c % NEAR := []];
    forall d: nat | now + 1 <= d < now + HALF ensures Holds(v, [], c, added, d) {
      assert Holds(w, [], c, added, d);
      RemainingDue(now, d);
      DueNow(d % WRAP, c);
    }
  }

  /** Before the tick nothing is left for the present. */
  lemma NothingDue(w: seq<seq<Node>>, c: int)
    requires Placed(w, c, 1)
    ensures w[c % NEAR] == []
  {
    if w[c % NEAR] != [] {
      var x := w[c % NEAR][0];
      assert Waiting(x, c, 1) && Belongs(x, c, c % NEAR);
      DueNow(x.expire, c);
    }
  }

  // ----- the timer -----

  /** The loop of `timer_shift`: the level at which the clock has moved on by a digit; `idx` is zero for none. */
  method LevelToMove(ct: int) returns (level: nat, idx: nat)
    requires IsTime(ct) && ct != 0
    ensures level < 4 && idx < 64 && Moved(ct) == if idx == 0 then -1 else Far(level, idx)
  {
    level, idx := 0, 0;
    var t, mask := ct / NEAR, NEAR;
    while ct % mask == 0
      invariant level < 4 && mask == Span(level) && t == ct / Span(level)
      invariant Moved(ct) == MovedFrom(ct, level)
      decreases 4 - level
    {
      if t % LEVEL != 0 {
        idx := t % LEVEL;
        return;
      }
      NextLevel(ct, level);
      mask := mask * LEVEL;
      t := t / LEVEL;
      level := level + 1;
    }
  }

  /** `struct timer` */
  class Timer {
    const slots: array<seq<Node>>   // `near[256]`, then `t[4][64]`
    var time: int
    ghost var now: nat              // ticks since the start, without wrap-around
    ghost var added: seq<Entry>     // everything ever added, in order

    ghost predicate Shaped()
      reads this, slots
    {
      slots.Length == 512 && time == now % WRAP
    }

    /** Nothing is due at the present tick, and everything added for later is in its place. */
    ghost predicate Valid()
      reads this, slots
    {
      Shaped() && Placed(slots[..], time, 1) && Agrees(slots[..], [], now, 1, added)
    }

    constructor ()
      ensures Valid() && fresh(slots) && now == 0 && added == []
    {
      slots := new seq<Node>[512](_ => []);
      time, now, added := 0, 0, [];
      new;
      forall d: nat | 1 <= d < HALF ensures Holds(slots[..], [], 0, [], d) {}
    }

    method AddNode(node: Node)
      requires slots.Length == 512 && IsTime(time) && IsTime(node.expire)
      modifies slots
      ensures slots[..] == Linked(old(slots[..]), node, time)
    {
      var c, e := time, node.expire;
      if e / NEAR == c / NEAR {
        slots[e % NEAR] := slots[e % NEAR] + [node];
      } else {
        var i := 0;
        while i < 3
          invariant 0 <= i <= 3 && forall k: nat :: k <= i ==> !Same(e, c, k)
        {
          if Same(e, c, i + 1) { break; }
          i := i + 1;
        }
        var s := Far(i, (e / Span(i)) % LEVEL);
        slots[s] := slots[s] + [node];
      }
    }

    /** `timer_add`: a node for `delay` ticks from now. */
    method Add(handle: nat, session: int, delay: int)
      requires Valid() && 1 <= delay < HALF
      modifies this`added, slots
      ensures Valid()
      ensures added == old(added) + [Entry(now + delay, Node((now + delay) % WRAP, handle, session))]
    {
      var node := Node((delay + time) % WRAP, handle, session);
      WrapAdd(now, delay);
      ghost var w := slots[..];
      RemainingDue(now, now + delay);
      LinkedPlaced(w, node, time, 1);
      AddOne(w, node, now, now + delay, added);
      AddNode(node);
      added := added + [Entry(now + delay, node)];
    }

    /** `move_list` of a list already taken out of the wheel. */
    method Relink(rest: seq<Node>)
      requires Shaped() && Placed(slots[..], time, 0) && Agrees(slots[..], rest, now, 0, added)
      requires forall k :: 0 <= k < |rest| ==> Waiting(rest[k], time, 0)
      modifies slots
      ensures Shaped() && Placed(slots[..], time, 0) && Agrees(slots[..], [], now, 0, added)
    {
      var current := rest;
      while current != []
        invariant Shaped() && Placed(slots[..], time, 0) && Agrees(slots[..], current, now, 0, added)
        invariant forall k :: 0 <= k < |current| ==> Waiting(current[k], time, 0)
      {
        LinkedPlaced(slots[..], current[0], time, 0);
        MoveOne(slots[..], current, now, 0, added);
        AddNode(current[0]);
        current := current[1..];
      }
    }

    method MoveList(level: nat, idx: nat)
      requires Shaped() && level < 4 && idx < 64
      requires Placed(slots[..][Far(level, idx) := []], time, 0)
      requires Agrees(slots[..][Far(level, idx) := []], slots[Far(level, idx)], now, 0, added)
      requires forall k :: 0 <= k < |slots[Far(level, idx)]| ==> Waiting(slots[Far(level, idx)][k], time, 0)
      modifies slots
      ensures Shaped() && Placed(slots[..], time, 0) && Agrees(slots[..], [], now, 0, added)
    {
      var current := slots[Far(level, idx)];
      ghost var w := slots[..];
      slots[Far(level, idx)] := [];
      assert slots[..] == w[Far(level, idx) := []];
      Relink(current);
    }

    /** `timer_shift`: the clock moves on, and one list of a higher level is spread out where a block begins. */
    method Shift()
      requires Valid()
      modifies this`time, this`now, slots
      ensures Shaped() && now == old(now) + 1
      ensures Placed(slots[..], time, 0) && Agrees(slots[..], [], now, 0, added)
    {
      MovedRange(Tick(time), 0);
      ShiftStarts(slots[..], now, added);
      TickNow(now);
      time := (time + 1) % WRAP;
      now := now + 1;
      if time == 0 {
        MoveList(3, 0);
      } else {
        var level, idx := LevelToMove(time);
        if idx != 0 { MoveList(level, idx); }
      }
    }

    /** `timer_execute`: takes the near list of the present until it is empty. */
    method Execute() returns (out: seq<Node>)
      requires slots.Length == 512 && IsTime(time)
      modifies slots
      ensures out == old(slots[..])[time % NEAR] && slots[..] == old(slots[..])[time % NEAR := []]
    {
      var idx := time % NEAR;
      ghost var w := slots[..];
      out := [];
      while slots[idx] != []
        invariant (out == [] && slots[..] == w) || (out == w[idx] && slots[..] == w[idx := []])
        decreases |slots[idx]|
      {
        out := out + slots[idx];
        slots[idx] := [];
        assert slots[..] == w[idx := []];
      }
    }

    /**
     `timer_update`: the clock moves on by one, and all nodes ever added for the new tick come out, in the order in
     which they were added.
     */
    method Update() returns (out: seq<Node>)
      requires Valid()
      modifies this`time, this`now, slots
      ensures Valid() && now == old(now) + 1 && added == old(added)
      ensures out == DueAt(added, now)
    {
      NothingDue(slots[..], time);
      var none := Execute();
      assert slots[..] == old(slots[..]);
      Shift();
      NearIsDue(slots[..], now, added);
      OthersWait(slots[..], time);
      OthersHold(slots[..], now, added);
      out := Execute();
      out := none + out;
    }
  }

  // ----- whole runs -----

  datatype Op = AddOp(handle: nat, session: int, delay: int) | UpdateOp

  predicate OpOk(op: Op) { op.AddOp? ==> 1 <= op.delay < HALF }

  function Ticks(ops: seq<Op>): nat {
    if ops == [] then 0 else Ticks(ops[..|ops| - 1]) + (if ops[|ops| - 1].UpdateOp? then 1 else 0)
  }

  /** Everything added, with the tick at which it is due. */
  function Calendar(ops: seq<Op>): seq<Entry>
    requires forall k :: 0 <= k < |ops| ==> OpOk(ops[k])
  {
    if ops == [] then []
    else
      var before, op := ops[..|ops| - 1], ops[|ops| - 1];
      match op
      case AddOp(handle, session, delay) =>
        assert OpOk(ops[|ops| - 1]);
        Calendar(before) + [Entry(Ticks(before) + delay, Node((Ticks(before) + delay) % WRAP, handle, session))]
      case UpdateOp => Calendar(before)
  }

  /** What is added for later does not change what was due before. */
  ghost predicate Logged(log: seq<seq<Node>>, added: seq<Entry>) {
    forall k :: 0 <= k < |log| ==> log[k] == DueAt(added, k + 1)
  }

  lemma LoggedOn(log: seq<seq<Node>>, added: seq<Entry>, x: Entry)
    requires Logged(log, added) && x.due > |log|
    ensures Logged(log, added + [x])
  {
    forall k | 0 <= k < |log| ensures log[k] == DueAt(added + [x], k + 1) { DueSnoc(added, x, k + 1); }
  }

  /** Any run of a new timer: update number `k` yields all nodes due at tick `k`, in the order of their addition. */
  method Drive(ops: seq<Op>) returns (log: seq<seq<Node>>)
    requires forall k :: 0 <= k < |ops| ==> OpOk(ops[k])
    ensures |log| == Ticks(ops)
    ensures forall k :: 0 <= k < |log| ==> log[k] == DueAt(Calendar(ops), k + 1)
  {
    var t := new Timer();
    log := [];
    var i := 0;
    while i < |ops|
      invariant 0 <= i <= |ops| && t.Valid() && fresh(t) && fresh(t.slots)
      invariant t.now == |log| == Ticks(ops[..i]) && t.added == Calendar(ops[..i])
      invariant Logged(log, t.added)
    {
      assert OpOk(ops[i]);
      assert ops[..i + 1][..i] == ops[..i];
      match ops[i] {
        case AddOp(handle, session, delay) =>
          LoggedOn(log, t.added, Entry(t.now + delay, Node((t.now + delay) % WRAP, handle, session)));
          t.Add(handle, session, delay);
        case UpdateOp =>
          var out := t.Update();
          log := log + [out];
      }
      i := i + 1;
    }
    assert ops[..|ops|] == ops;
  }
}
