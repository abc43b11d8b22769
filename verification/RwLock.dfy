/**
 The reader-writer lock of `rwlock.h`: two counters and spinning threads, one atomic operation a step.
 */
module RwLock {

  type Tid = nat

  /** Where a thread is, by the operation it performs next. */
  datatype Pc =
    | Outside
    | ReaderSpin     // waits for `write` to clear
    | ReaderAdd      // saw it clear; increments `read`
    | ReaderCheck    // tests `write` again
    | ReaderUndo     // a writer came first; decrements `read`
    | Reading
    | WriterSet      // test-and-set of `write`
    | WriterSpin     // waits for `read` to drain
    | Writing

  datatype Lock = Lock(write: bool, read: int, pcs: map<Tid, Pc>)

  datatype Wish = ToRead | ToWrite

  function Step(k: Lock, t: Tid, wish: Wish): Lock
    requires t in k.pcs
  {
    match k.pcs[t]
    case Outside => k.(pcs := k.pcs[t := if wish == ToRead then ReaderSpin else WriterSet])
    case ReaderSpin => if k.write then k else k.(pcs := k.pcs[t := ReaderAdd])
    case ReaderAdd => k.(read := k.read + 1, pcs := k.pcs[t := ReaderCheck])
    case ReaderCheck => k.(pcs := k.pcs[t := if k.write then ReaderUndo else Reading])
    case ReaderUndo => k.(read := k.read - 1, pcs := k.pcs[t := ReaderSpin])
    case Reading => k.(read := k.read - 1, pcs := k.pcs[t := Outside])
    case WriterSet => k.(write := true, pcs := k.pcs[t := if k.write then WriterSet else WriterSpin])
    case WriterSpin => if k.read != 0 then k else k.(pcs := k.pcs[t := Writing])
    case Writing => k.(write := false, pcs := k.pcs[t := Outside])
  }

  /** Past the increment of `read` and not yet past the decrement. */
  predicate Counted(p: Pc) { p == ReaderCheck || p == ReaderUndo || p == Reading }

  /** Owner of `write` */
  predicate Owner(p: Pc) { p == WriterSpin || p == Writing }

  ghost function Readers(pcs: map<Tid, Pc>): set<Tid> { set t | t in pcs && Counted(pcs[t]) }

  ghost function Owners(pcs: map<Tid, Pc>): set<Tid> { set t | t in pcs && Owner(pcs[t]) }

  /** A writer inside keeps every reader out. */
  ghost predicate Excluded(pcs: map<Tid, Pc>) {
    forall t, u :: t in pcs && u in pcs && pcs[t] == Writing ==> pcs[u] != Reading
  }

  ghost predicate Inv(k: Lock) {
    k.read == |Readers(k.pcs)| && |Owners(k.pcs)| == (if k.write then 1 else 0) && Excluded(k.pcs)
  }

  function One(b: bool): int { if b then 1 else 0 }

  lemma ReadersMove(pcs: map<Tid, Pc>, t: Tid, p: Pc)
    requires t in pcs
    ensures |Readers(pcs[t := p])| == |Readers(pcs)| + One(Counted(p)) - One(Counted(pcs[t]))
  {
    var s, s' := Readers(pcs), Readers(pcs[t := p]);
    assert s' == if Counted(p) then (s - {t}) + {t} else s - {t};
    assert s == if Counted(pcs[t]) then (s - {t}) + {t} else s - {t};
  }

  lemma OwnersMove(pcs: map<Tid, Pc>, t: Tid, p: Pc)
    requires t in pcs
    ensures |Owners(pcs[t := p])| == |Owners(pcs)| + One(Owner(p)) - One(Owner(pcs[t]))
  {
    var s, s' := Owners(pcs), Owners(pcs[t := p]);
    assert s' == if Owner(p) then (s - {t}) + {t} else s - {t};
    assert s == if Owner(pcs[t]) then (s - {t}) + {t} else s - {t};
  }

  /** With `read` at zero nobody reads, and with `write` clear nobody writes. */
  lemma Drained(k: Lock, v: Tid)
    requires Inv(k) && v in k.pcs
    ensures k.read == 0 ==> k.pcs[v] != Reading
    ensures !k.write ==> k.pcs[v] != Writing
  {
    assert Counted(k.pcs[v]) ==> v in Readers(k.pcs);
    assert Owner(k.pcs[v]) ==> v in Owners(k.pcs);
  }

  lemma ExcludedMove(k: Lock, t: Tid, p: Pc)
    requires Inv(k) && t in k.pcs
    requires p == Writing ==> k.pcs[t] == Writing || k.read == 0
    requires p == Reading ==> k.pcs[t] == Reading || !k.write
    ensures Excluded(k.pcs[t := p])
  {
    forall u | u in k.pcs ensures p == Writing ==> k.pcs[u] != Reading { Drained(k, u); }
    forall u | u in k.pcs ensures p == Reading ==> k.pcs[u] != Writing { Drained(k, u); }
  }

  /** What a step from the present point to `p` must respect. */
  predicate Legal(k: Lock, b: Pc, p: Pc, write: bool, read: int) {
    && read == k.read + One(Counted(p)) - One(Counted(b))
    && One(write) == One(k.write) + One(Owner(p)) - One(Owner(b))
    && (p == Writing ==> b == Writing || k.read == 0)
    && (p == Reading ==> b == Reading || !k.write)
  }

  lemma MoveKeeps(k: Lock, t: Tid, p: Pc, write: bool, read: int)
    requires Inv(k) && t in k.pcs && Legal(k, k.pcs[t], p, write, read)
    ensures Inv(Lock(write, read, k.pcs[t := p]))
  {
    ReadersMove(k.pcs, t, p);
    OwnersMove(k.pcs, t, p);
    ExcludedMove(k, t, p);
  }

  lemma StepLegal(k: Lock, t: Tid, wish: Wish)
    requires t in k.pcs && (Owner(k.pcs[t]) ==> k.write)
    ensures var k' := Step(k, t, wish);
      && t in k'.pcs && k'.pcs == k.pcs[t := k'.pcs[t]] && Legal(k, k.pcs[t], k'.pcs[t], k'.write, k'.read)
  {
  }

  /** Every atomic operation of every thread keeps the invariant. */
  lemma StepKeeps(k: Lock, t: Tid, wish: Wish)
    requires Inv(k) && t in k.pcs
    ensures Inv(Step(k, t, wish))
  {
    if Owner(k.pcs[t]) { assert t in Owners(k.pcs); }
    StepLegal(k, t, wish);
    var k' := Step(k, t, wish);
    MoveKeeps(k, t, k'.pcs[t], k'.write, k'.read);
    assert k' == Lock(k'.write, k'.read, k.pcs[t := k'.pcs[t]]);
  }

  ghost predicate StepAt(r: seq<Lock>, i: nat)
    requires i + 1 < |r|
  {
    exists t, wish :: t in r[i].pcs && r[i + 1] == Step(r[i], t, wish)
  }

  /** Any interleaving of any number of threads. */
  ghost predicate Run(r: seq<Lock>) {
    && |r| > 0 && !r[0].write && r[0].read == 0 && (forall t <- r[0].pcs :: r[0].pcs[t] == Outside)
    && forall i: nat | i + 1 < |r| :: StepAt(r, i)
  }

  lemma {:induction false} RunInv(r: seq<Lock>, i: nat)
    requires Run(r) && i < |r|
    ensures Inv(r[i])
  {
    if i == 0 {
      assert Readers(r[0].pcs) == {} && Owners(r[0].pcs) == {};
    } else {
      RunInv(r, i - 1);
      assert StepAt(r, i - 1);
      var t, wish :| t in r[i - 1].pcs && r[i] == Step(r[i - 1], t, wish);
      StepKeeps(r[i - 1], t, wish);
    }
  }

  /** A writer inside is alone, and `read` counts the threads between increment and decrement. */
  lemma MutualExclusion(r: seq<Lock>, i: nat)
    requires Run(r) && i < |r|
    ensures r[i].read == |Readers(r[i].pcs)|
    ensures forall t, u :: t in r[i].pcs && u in r[i].pcs && t != u && r[i].pcs[t] == Writing ==>
      r[i].pcs[u] != Writing && r[i].pcs[u] != Reading
  {
    RunInv(r, i);
    var pcs := r[i].pcs;
    forall t, u | t in pcs && u in pcs && t != u && pcs[t] == Writing ensures pcs[u] != Writing {
      var s := Owners(pcs);
      assert t in s && s == (s - {t}) + {t};
      assert u in s <==> Owner(pcs[u]);
      assert |s - {t}| == 0 && u !in s - {t};
    }
  }

  // ----- getting in and out -----

  /** A thread performs its next operation. */
  datatype Move = Move(t: Tid, wish: Wish)

  ghost predicate Leads(k: Lock, ms: seq<Move>, k': Lock)
    decreases |ms|
  {
    if ms == [] then k' == k
    else ms[0].t in k.pcs && Leads(Step(k, ms[0].t, ms[0].wish), ms[1..], k')
  }

  lemma {:induction false} LeadsOn(k: Lock, ms: seq<Move>, l: Lock, ns: seq<Move>, k': Lock)
    requires Leads(k, ms, l) && Leads(l, ns, k')
    ensures Leads(k, ms + ns, k')
    decreases |ms|
  {
    if ms == [] {
      assert ms + ns == ns;
    } else {
      LeadsOn(Step(k, ms[0].t, ms[0].wish), ms[1..], l, ns, k');
      assert (ms + ns)[1..] == ms[1..] + ns;
    }
  }

  /** The next `n` operations of one thread alone. */
  function Alone(k: Lock, t: Tid, n: nat): (k': Lock)
    requires t in k.pcs
    ensures t in k'.pcs
  {
    if n == 0 then k else Step(Alone(k, t, n - 1), t, ToRead)
  }

  lemma {:induction false} AloneLeads(k: Lock, t: Tid, n: nat) returns (ms: seq<Move>)
    requires t in k.pcs
    ensures Leads(k, ms, Alone(k, t, n))
  {
    ms := [];
    if n > 0 {
      ms := AloneLeads(k, t, n - 1);
      var l := Alone(k, t, n - 1);
      var last := [Move(t, ToRead)];
      assert last[1..] == [] && Leads(l, last, Step(l, t, ToRead));
      LeadsOn(k, ms, l, last, Step(l, t, ToRead));
      ms := ms + last;
    }
  }

  /** Of two moves of a thread the last one counts. */
  lemma PutTwice(pcs: map<Tid, Pc>, t: Tid)
    ensures forall p: Pc, q: Pc {:trigger pcs[t := p], pcs[t := q]} :: var once: map<Tid, Pc> := pcs[t := p]; once[t := q] == pcs[t := q]
  {
  }

  ghost predicate NoOwner(k: Lock) { Owners(k.pcs) == {} }

  ghost predicate NoReader(k: Lock) { Readers(k.pcs) == {} }

  lemma Flags(k: Lock)
    requires Inv(k)
    ensures NoOwner(k) <==> !k.write
    ensures NoReader(k) <==> k.read == 0
  {
  }

  /** With no owner, a reader is in after three operations of its own, whoever else reads or waits. */
  lemma ReaderEnters(r: seq<Lock>, i: nat, t: Tid)
    requires Run(r) && i < |r| && t in r[i].pcs && r[i].pcs[t] == ReaderSpin && NoOwner(r[i])
    ensures Alone(r[i], t, 3) == Lock(false, r[i].read + 1, r[i].pcs[t := Reading])
    ensures Alone(r[i], t, 4) == Lock(false, r[i].read, r[i].pcs[t := Outside])
  {
    RunInv(r, i);
    Flags(r[i]);
    ReaderPasses(r[i], t);
  }

  lemma ReaderPasses(k: Lock, t: Tid)
    requires t in k.pcs && !k.write
    ensures k.pcs[t] == ReaderSpin ==>
      && Alone(k, t, 1) == k.(pcs := k.pcs[t := ReaderAdd])
      && Alone(k, t, 2) == k.(read := k.read + 1, pcs := k.pcs[t := ReaderCheck])
      && Alone(k, t, 3) == k.(read := k.read + 1, pcs := k.pcs[t := Reading])
      && Alone(k, t, 4) == k.(pcs := k.pcs[t := Outside])
    ensures k.pcs[t] == ReaderAdd ==>
      && Alone(k, t, 1) == k.(read := k.read + 1, pcs := k.pcs[t := ReaderCheck])
      && Alone(k, t, 2) == k.(read := k.read + 1, pcs := k.pcs[t := Reading])
      && Alone(k, t, 3) == k.(pcs := k.pcs[t := Outside])
  {
    var pcs := k.pcs;
    assert Alone(k, t, 0) == k;
    PutTwice(pcs, t);
  }

  /** With no owner and no counted reader, a writer is in after two. */
  lemma WriterEnters(r: seq<Lock>, i: nat, t: Tid)
    requires Run(r) && i < |r| && t in r[i].pcs && r[i].pcs[t] == WriterSet && NoOwner(r[i]) && NoReader(r[i])
    ensures Alone(r[i], t, 2) == Lock(true, 0, r[i].pcs[t := Writing])
    ensures Alone(r[i], t, 3) == Lock(false, 0, r[i].pcs[t := Outside])
  {
    RunInv(r, i);
    Flags(r[i]);
    WriterPasses(r[i], t);
  }

  lemma WriterPasses(k: Lock, t: Tid)
    requires t in k.pcs && k.read == 0
    ensures k.pcs[t] == WriterSet && !k.write ==>
      && Alone(k, t, 1) == k.(write := true, pcs := k.pcs[t := WriterSpin])
      && Alone(k, t, 2) == k.(write := true, pcs := k.pcs[t := Writing])
      && Alone(k, t, 3) == k.(write := false, pcs := k.pcs[t := Outside])
    ensures k.pcs[t] == WriterSpin ==>
      Alone(k, t, 1) == k.(pcs := k.pcs[t := Writing]) && Alone(k, t, 2) == k.(write := false, pcs := k.pcs[t := Outside])
    ensures k.pcs[t] == Writing ==> Alone(k, t, 1) == k.(write := false, pcs := k.pcs[t := Outside])
  {
    var pcs := k.pcs;
    assert Alone(k, t, 0) == k;
    PutTwice(pcs, t);
  }

  /** At its second look a reader enters exactly if no thread owns the lock. */
  lemma CheckEnters(r: seq<Lock>, i: nat, t: Tid, wish: Wish)
    requires Run(r) && i < |r| && t in r[i].pcs && r[i].pcs[t] == ReaderCheck
    ensures Step(r[i], t, wish).pcs == r[i].pcs[t := if NoOwner(r[i]) then Reading else ReaderUndo]
  {
    RunInv(r, i);
    Flags(r[i]);
  }

  // ----- no deadlock -----

  /** A counted reader stops being counted after at most two operations, and nothing else changes. */
  lemma ReaderLeaves(k: Lock, t: Tid) returns (ms: seq<Move>, p: Pc)
    requires t in k.pcs && Counted(k.pcs[t])
    ensures !Counted(p) && !Owner(p) && Leads(k, ms, k.(read := k.read - 1, pcs := k.pcs[t := p]))
  {
    var pcs := k.pcs;
    PutTwice(pcs, t);
    assert Alone(k, t, 0) == k && Alone(k, t, 1) == Step(k, t, ToRead) && Alone(k, t, 2) == Step(Alone(k, t, 1), t, ToRead);
    p := if pcs[t] == ReaderUndo || (pcs[t] == ReaderCheck && k.write) then ReaderSpin else Outside;
    ms := AloneLeads(k, t, if pcs[t] == ReaderCheck then 2 else 1);
  }

  lemma {:induction false} ReadersLeave(k: Lock) returns (ms: seq<Move>, k': Lock)
    requires Inv(k)
    ensures Leads(k, ms, k') && Inv(k') && NoReader(k') && k'.pcs.Keys == k.pcs.Keys
    decreases |Readers(k.pcs)|
  {
    if t :| t in Readers(k.pcs) {
      var p;
      ms, p := ReaderLeaves(k, t);
      var l := k.(read := k.read - 1, pcs := k.pcs[t := p]);
      MoveKeeps(k, t, p, l.write, l.read);
      ReadersMove(k.pcs, t, p);
      var ns;
      ns, k' := ReadersLeave(l);
      LeadsOn(k, ms, l, ns, k');
      ms := ms + ns;
    } else {
      ms, k' := [], k;
    }
  }

  lemma OwnerLeaves(k: Lock) returns (ms: seq<Move>, k': Lock)
    requires Inv(k) && NoReader(k)
    ensures Leads(k, ms, k') && Inv(k') && NoReader(k') && NoOwner(k') && k'.pcs.Keys == k.pcs.Keys
  {
    Flags(k);
    if t :| t in Owners(k.pcs) {
      WriterPasses(k, t);
      ms := AloneLeads(k, t, if k.pcs[t] == WriterSpin then 2 else 1);
      k' := k.(write := false, pcs := k.pcs[t := Outside]);
      MoveKeeps(k, t, Outside, false, k.read);
      Flags(k');
    } else {
      ms, k' := [], k;
    }
  }

  ghost function Inside(pcs: map<Tid, Pc>): set<Tid> { set t | t in pcs && pcs[t] != Outside }

  /** The lock when all threads are outside. */
  ghost function Unused(pcs: map<Tid, Pc>): Lock { Lock(false, 0, map t | t in pcs :: Outside) }

  lemma SameUnused(a: map<Tid, Pc>, b: map<Tid, Pc>)
    requires a.Keys == b.Keys
    ensures Unused(a) == Unused(b)
  {
    assert forall t :: t in a <==> t in b;
  }

  /** In a lock that nobody holds, a thread that waits goes in and out. */
  lemma {:induction false} WaitersPass(k: Lock) returns (ms: seq<Move>)
    requires Inv(k) && NoReader(k) && NoOwner(k)
    ensures Leads(k, ms, Unused(k.pcs))
    decreases |Inside(k.pcs)|
  {
    Flags(k);
    if t :| t in Inside(k.pcs) {
      assert !Counted(k.pcs[t]) && !Owner(k.pcs[t]) by {
        assert t in Readers(k.pcs) <==> Counted(k.pcs[t]);
        assert t in Owners(k.pcs) <==> Owner(k.pcs[t]);
      }
      ReaderPasses(k, t);
      WriterPasses(k, t);
      var l := k.(pcs := k.pcs[t := Outside]);
      ms := AloneLeads(k, t, if k.pcs[t] == ReaderSpin then 4 else 3);
      MoveKeeps(k, t, Outside, false, 0);
      Flags(l);
      assert Inside(l.pcs) == Inside(k.pcs) - {t};
      var ns := WaitersPass(l);
      SameUnused(k.pcs, l.pcs);
      LeadsOn(k, ms, l, ns, Unused(k.pcs));
      ms := ms + ns;
    } else {
      ms := [];
      assert forall t <- k.pcs :: k.pcs[t] == Outside by {
        forall t <- k.pcs ensures k.pcs[t] == Outside { assert t !in Inside(k.pcs); }
      }
      assert k.pcs == Unused(k.pcs).pcs;
    }
  }

  /** In an unused lock a thread gets in as it wishes. */
  lemma GetsIn(pcs: map<Tid, Pc>, t: Tid, wish: Wish) returns (ms: seq<Move>, k': Lock)
    requires t in pcs
    ensures Leads(Unused(pcs), ms, k') && t in k'.pcs && k'.pcs[t] == (if wish == ToRead then Reading else Writing)
  {
    var k := Unused(pcs);
    var first := [Move(t, wish)];
    var l := Step(k, t, wish);
    assert first[1..] == [] && Leads(k, first, l);
    ReaderPasses(l, t);
    WriterPasses(l, t);
    var n := if wish == ToRead then 3 else 2;
    k' := Alone(l, t, n);
    var rest := AloneLeads(l, t, n);
    LeadsOn(k, first, l, rest, k');
    ms := first + rest;
  }

  /** From every state of every run there is a way on in which a given thread gets to read, and one in which it writes. */
  lemma CanAlwaysEnter(r: seq<Lock>, i: nat, t: Tid, wish: Wish) returns (ms: seq<Move>, k': Lock)
    requires Run(r) && i < |r| && t in r[i].pcs
    ensures Leads(r[i], ms, k') && t in k'.pcs && k'.pcs[t] == (if wish == ToRead then Reading else Writing)
  {
    var a := NoDeadlock(r, i);
    var b;
    b, k' := GetsIn(r[i].pcs, t, wish);
    LeadsOn(r[i], a, Unused(r[i].pcs), b, k');
    ms := a + b;
  }

  /**
   From every state of every run there is a way on in which all threads that are in leave, all that wait go in and
   leave, and the lock is free.
   */
  lemma NoDeadlock(r: seq<Lock>, i: nat) returns (ms: seq<Move>)
    requires Run(r) && i < |r|
    ensures Leads(r[i], ms, Unused(r[i].pcs))
  {
    var k := r[i];
    RunInv(r, i);
    var a, l := ReadersLeave(k);
    var b, m := OwnerLeaves(l);
    var c := WaitersPass(m);
    var free := Unused(k.pcs);
    SameUnused(k.pcs, m.pcs);
    LeadsOn(l, b, m, c, free);
    LeadsOn(k, a, l, b + c, free);
    ms := a + (b + c);
  }
}
