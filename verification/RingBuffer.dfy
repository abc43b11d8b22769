/**
 The ring buffer under the message queue of `skynet_mq.c` and the packet queue of `lua-netpack.c`: one slot stays free,
 and a push that would fill it grows the buffer.
 */
module RingBuffer {

  /** The entries from `head` up to `tail`, around the end of the buffer. */
  function Entries<T>(q: seq<T>, head: nat, tail: nat): seq<T>
    requires head <= |q| && tail <= |q|
  {
    if head <= tail then q[head..tail] else q[head..] + q[..tail]
  }

  class Ring<T> {
    var queue: array<T>
    var head: nat
    var tail: nat

    ghost predicate Valid()
      reads this, queue
    {
      head < queue.Length && tail < queue.Length
    }

    ghost function Contents(): seq<T>
      requires Valid()
      reads this, queue
    {
      Entries(queue[..], head, tail)
    }

    constructor (cap: nat, fill: T)
      requires cap >= 1
      ensures Valid() && fresh(queue) && queue.Length == cap && Contents() == []
    {
      queue := new T[cap](_ => fill);
      head, tail := 0, 0;
    }

    /** `skynet_mq_length` */
    method Size() returns (n: nat)
      requires Valid()
      ensures n == |Contents()|
    {
      if head <= tail { return tail - head; }
      return tail + queue.Length - head;
    }

    /** `expand_queue` of a buffer without a free slot: all entries, from the head on, at the start of a larger one. */
    method Expand(cap: nat)
      requires Valid() && cap > queue.Length && head == tail
      modifies this
      ensures Valid() && fresh(queue) && queue.Length == cap
      ensures Contents() == old(queue[head..] + queue[..head])
    {
      var old_cap := queue.Length;
      ghost var all := queue[head..] + queue[..head];
      var fill := queue[0];
      var larger := new T[cap](_ => fill);
      var i := 0;
      while i < old_cap
        invariant 0 <= i <= old_cap && old_cap == queue.Length && Valid()
        invariant larger[..i] == all[..i]
        invariant queue == old(queue) && head == old(head) && queue[..] == old(queue[..])
      {
        AroundAt(head, i, old_cap);
        var at := (head + i) % old_cap;
        larger[i] := queue[at];
        assert larger[i] == all[i];
        i := i + 1;
      }
      head, tail := 0, old_cap;
      queue := larger;
      assert Contents() == all;
    }

    /** Appends, and grows to `cap` slots where the last free slot has been used. */
    method Push(x: T, cap: nat)
      requires Valid() && cap > queue.Length
      modifies this, queue
      ensures Valid() && Contents() == old(Contents()) + [x] && (queue == old(queue) || fresh(queue))
    {
      ghost var s, was := queue[..], Contents();
      queue[tail] := x;
      assert queue[..] == s[tail := x];
      ghost var at := tail;
      tail := if tail + 1 >= queue.Length then 0 else tail + 1;
      if head == tail {
        FullEntries(s, head, at, x);
        Expand(cap);
      } else {
        AppendEntries(s, head, at, tail, x);
      }
    }

    /** Takes the first entry, if there is one. */
    method Pop(fill: T) returns (ok: bool, x: T)
      requires Valid()
      modifies this`head
      ensures Valid() && ok == (old(Contents()) != [])
      ensures ok ==> [x] + Contents() == old(Contents())
      ensures !ok ==> Contents() == [] && head == old(head)
    {
      ok, x := head != tail, fill;
      if ok {
        x := queue[head];
        head := if head + 1 >= queue.Length then 0 else head + 1;
      }
    }
  }

  lemma AroundAt(head: nat, i: nat, cap: nat)
    requires head < cap && i < cap
    ensures (head + i) % cap == if head + i < cap then head + i else head + i - cap
  {
    if head + i >= cap { ModOnce(head + i - cap, cap); }
  }

  lemma ModOnce(r: nat, cap: nat)
    requires r < cap
    ensures (r + cap) % cap == r
  {
  }

  /** One more entry, while a slot stays free. */
  lemma AppendEntries<T>(q: seq<T>, head: nat, tail: nat, next: nat, x: T)
    requires head < |q| && tail < |q| && next == (if tail + 1 >= |q| then 0 else tail + 1) && head != next
    ensures Entries(q[tail := x], head, next) == Entries(q, head, tail) + [x]
  {
  }

  /** One more entry that takes the last free slot. */
  lemma FullEntries<T>(q: seq<T>, head: nat, tail: nat, x: T)
    requires head < |q| && tail < |q| && head == (if tail + 1 >= |q| then 0 else tail + 1)
    ensures q[tail := x][head..] + q[tail := x][..head] == Entries(q, head, tail) + [x]
  {
  }
}
