/**
 What the scheduler can always do: from every state of every run there is a way on in which all calls return and every
 message meets its fate.
 */
module SchedulerProgress {

  import opened Scheduler
  import opened SchedulerInvariant
  import opened SchedulerHistory

  /** The moves take one state to the other. */
  ghost predicate Leads(s: State, ms: seq<Move>, s': State)
    decreases |ms|
  {
    if ms == [] then s' == s
    else Known(s, ms[0].t) && Leads(Step(s, ms[0].t, ms[0].c), ms[1..], s')
  }

  lemma LeadsFirst(s: State, x: Move, ms: seq<Move>, s': State)
    requires Known(s, x.t) && Leads(Step(s, x.t, x.c), ms, s')
    ensures Leads(s, [x] + ms, s')
  {
    assert ([x] + ms)[1..] == ms;
  }

  lemma {:induction false} LeadsOn(s: State, ms: seq<Move>, u: State, ns: seq<Move>, s': State)
    requires Leads(s, ms, u) && Leads(u, ns, s')
    ensures Leads(s, ms + ns, s')
    decreases |ms|
  {
    hide Step, Known;
    if ms == [] {
      assert ms + ns == ns;
    } else {
      LeadsOn(Step(s, ms[0].t, ms[0].c), ms[1..], u, ns, s');
      assert (ms + ns)[1..] == ms[1..] + ns;
    }
  }

  /** All that a state keeps of the one before it. */
  ghost predicate Onward(s: State, s': State) { Inv(s') && Evolves(s, s') && s'.acts.Keys == s.acts.Keys }

  lemma OnwardOn(s: State, u: State, s': State)
    requires Onward(s, u) && Onward(u, s')
    ensures Onward(s, s')
  {
    forall h <- s.svc ensures h in s'.svc && Grows(s.svc[h], s'.svc[h]) { assert h in u.svc && Grows(u.svc[h], s'.svc[h]); }
  }

  lemma StepOnward(s: State, t: Tid, c: Choice)
    requires Inv(s) && t in s.acts
    ensures Known(s, t) && Onward(s, Step(s, t, c)) && Step(s, t, c).acts == s.acts[t := Step(s, t, c).acts[t]]
  {
    hide Inv, Step, Evolves;
    StepKeeps(s, t, c);
    StepEvolves(s, t, c);
    StepActs(s, Move(t, c), 0, 0);
  }

  // ----- a call on its own -----

  /** How far a call is from its end, not counting the messages of the queue it works on. */
  function Stage(a: Act): nat {
    match a
    case Idle => 0
    case Deleting(_, next) => Behind(next)
    case Releasing(_, next) => Behind(next) + 1
    case Sending(_, _) => 3
    case Returned(_) => 3
    case Reporting(_) => 4
    case Publishing(_, _) => 5
    case Starting(_) => 6
    case Creating(_) => 11
    case Serving(_) => 3
    case Calling(_, _) => 3
    case Dropping(_) => 3
    case DroppingMsg(_, _) => 3
    case Orphaned(_) => 4
    case Holding(_) => 5
    case Swapping(_, _) => 8
    case Served(_) => 9
    case Retiring(_) => 7
  }

  function Behind(next: After): nat {
    match next
    case Rest => 1
    case Hold(_) => 6
    case Launch(_) => 7
    case Withdraw(_) => 8
    case Dispose(_) => 5
  }

  /** The messages of the queue that a call works on. */
  function Left(s: State, a: Act): nat {
    if a.Serving? || a.Calling? || a.Dropping? || a.DroppingMsg? then
      2 * (if a.q in s.svc then |s.svc[a.q].contents| else 0) + (if a.Calling? || a.DroppingMsg? then 1 else 0)
    else 0
  }

  lemma CloserToEnd(s: State, t: Tid)
    requires Known(s, t) && s.acts[t] != Idle
    ensures var s' := Step(s, t, Go);
      && t in s'.acts
      && (Stage(s'.acts[t]) < Stage(s.acts[t])
          || (Stage(s'.acts[t]) == Stage(s.acts[t]) && Left(s', s'.acts[t]) < Left(s, s.acts[t])))
  {
  }

  /** A call that goes on alone comes to its end. */
  lemma {:induction false} Finish(s: State, t: Tid) returns (ms: seq<Move>, s': State)
    requires Inv(s) && t in s.acts
    ensures Leads(s, ms, s') && Onward(s, s') && s'.acts == s.acts[t := Idle]
    decreases Stage(s.acts[t]), Left(s, s.acts[t])
  {
    hide Inv, Step, Evolves, Stage, Left;
    if s.acts[t] == Idle {
      ms, s' := [], s;
      assert s.acts == s.acts[t := Idle];
      Itself(s);
    } else {
      StepOnward(s, t, Go);
      CloserToEnd(s, t);
      var u := Step(s, t, Go);
      ms, s' := Finish(u, t);
      LeadsFirst(s, Move(t, Go), ms, s');
      ms := [Move(t, Go)] + ms;
      OnwardOn(s, u, s');
      assert s.acts[t := u.acts[t]][t := Idle] == s.acts[t := Idle];
    }
  }

  lemma Itself(s: State)
    requires Inv(s)
    ensures Onward(s, s)
  {
  }

  // ----- all calls -----

  ghost function Busy(s: State): set<Tid> { set t | t in s.acts && s.acts[t] != Idle }

  ghost predicate AllIdle(s: State) { forall t <- s.acts :: s.acts[t] == Idle }

  lemma {:induction false} FinishAll(s: State) returns (ms: seq<Move>, s': State)
    requires Inv(s)
    ensures Leads(s, ms, s') && Onward(s, s') && AllIdle(s')
    decreases |Busy(s)|
  {
    hide Inv, Evolves;
    if t :| t in Busy(s) {
      var u;
      ms, u := Finish(s, t);
      assert Busy(u) == Busy(s) - {t};
      var ns;
      ns, s' := FinishAll(u);
      LeadsOn(s, ms, u, ns, s');
      ms := ms + ns;
      OnwardOn(s, u, s');
    } else {
      assert forall t <- s.acts :: s.acts[t] != Idle ==> t in Busy(s);
      ms, s' := [], s;
      Itself(s);
    }
  }

  // ----- one queue after the other -----

  /** One call works on the queue at the head of the list, and no other call does anything. */
  ghost predicate Draining(s: State, t: Tid) {
    && Inv(s) && t in s.acts && (forall u <- s.acts :: u != t ==> s.acts[u] == Idle)
    && match s.acts[t]
       case Idle => true
       case Holding(_) => true
       case Orphaned(_) => true
       case Dropping(_) => true
       case DroppingMsg(_, _) => true
       case Serving(q) => q in s.svc && s.svc[q].registered
       case Calling(q, _) => q in s.svc && s.svc[q].registered
       case Releasing(q, next) => next == Rest && q in s.svc && s.svc[q].registered
       case _ => false
  }

  lemma Alone(s: State, t: Tid, r: Role)
    requires t in s.acts && forall u <- s.acts :: u != t ==> s.acts[u] == Idle
    ensures Count(s.acts, r) == One(Plays(s.acts[t], r))
  {
    assert Players(s.acts, r) == if Plays(s.acts[t], r) then {t} else {};
  }

  /** What the references are when only one call is not idle. */
  lemma AloneRefs(s: State, t: Tid, q: Handle)
    requires Draining(s, t) && q in s.svc
    ensures s.svc[q].ref == One(RefersTo(s.acts[t], q)) + One(s.svc[q].registered)
    ensures !s.svc[q].registered && !RefersTo(s.acts[t], q) && !Deletes(s.acts[t], q) ==> s.svc[q].release
  {
    assert FineAt(s, q);
    Alone(s, t, RefRole(q));
    Alone(s, t, DeleteRole(q));
  }

  lemma DrainStep(s: State, t: Tid)
    requires Draining(s, t) && s.acts[t] != Idle
    ensures Known(s, t) && var u := Step(s, t, Go); Draining(u, t) && u.global == s.global
  {
    hide Inv, FineAt, Evolves, Grows;
    StepOnward(s, t, Go);
    InvAct(s, t);
    var a := s.acts[t];
    AloneRefs(s, t, Subject(a));
  }

  lemma InvAct(s: State, t: Tid)
    requires Inv(s) && t in s.acts
    ensures ActOk(s.svc, s.acts[t])
  {
  }

  lemma {:induction false} Drain(s: State, t: Tid) returns (ms: seq<Move>, s': State)
    requires Draining(s, t)
    ensures Leads(s, ms, s') && Onward(s, s') && AllIdle(s') && s'.global == s.global
    decreases Stage(s.acts[t]), Left(s, s.acts[t])
  {
    hide Inv, Step, Evolves, Stage, Left;
    if s.acts[t] == Idle {
      ms, s' := [], s;
      Itself(s);
    } else {
      StepOnward(s, t, Go);
      DrainStep(s, t);
      CloserToEnd(s, t);
      var u := Step(s, t, Go);
      ms, s' := Drain(u, t);
      LeadsFirst(s, Move(t, Go), ms, s');
      ms := [Move(t, Go)] + ms;
      OnwardOn(s, u, s');
    }
  }

  lemma TakeStarts(s: State, t: Tid)
    requires Inv(s) && AllIdle(s) && t in s.acts && s.global != []
    ensures Known(s, t) && var u := Step(s, t, Take); Draining(u, t) && u.global == s.global[1..] && Onward(s, u)
  {
    hide Inv;
    StepOnward(s, t, Take);
  }

  /** The queues of the list, one by one, until there is none. */
  lemma {:induction false} DrainAll(s: State, t: Tid) returns (ms: seq<Move>, s': State)
    requires Inv(s) && AllIdle(s) && t in s.acts
    ensures Leads(s, ms, s') && Onward(s, s') && AllIdle(s') && s'.global == []
    decreases |s.global|
  {
    hide Inv, Step, Evolves;
    if s.global == [] {
      ms, s' := [], s;
      Itself(s);
    } else {
      TakeStarts(s, t);
      var u := Step(s, t, Take);
      var v, ns;
      ms, v := Drain(u, t);
      LeadsFirst(s, Move(t, Take), ms, v);
      OnwardOn(s, u, v);
      ns, s' := DrainAll(v, t);
      LeadsOn(s, [Move(t, Take)] + ms, v, ns, s');
      ms := [Move(t, Take)] + ms + ns;
      OnwardOn(s, v, s');
    }
  }

  /** Every message has met its fate, and every service that is not registered any more is gone. */
  ghost predicate AllSettled(s: State) { forall h <- s.svc :: SettledAt(s.svc[h]) }

  predicate SettledAt(v: Service) {
    && Msgs(v.settled) == v.pushed && v.contents == []
    && (if v.registered then v.ref == 1 && v.deletions == 0 && v.frees == 0 else v.deletions == 1 && v.frees == 1)
  }

  lemma NothingLeft(s: State)
    requires Inv(s) && AllIdle(s) && s.global == []
    ensures AllSettled(s)
  {
    forall h <- s.svc ensures SettledAt(s.svc[h]) {
      assert FineAt(s, h);
      assert Players(s.acts, KeepRole(h)) == {} && Players(s.acts, RefRole(h)) == {} && Players(s.acts, DeleteRole(h)) == {};
    }
  }

  // ----- runs go on -----

  lemma {:induction false} GoOn(r: seq<State>, ms: seq<Move>, ns: seq<Move>, s': State) returns (r': seq<State>)
    requires Trace(r, ms) && Leads(r[|r| - 1], ns, s')
    ensures r <= r' && Trace(r', ms + ns) && r'[|r'| - 1] == s'
    decreases |ns|
  {
    hide Step, Known, Start;
    if ns == [] {
      assert ms + ns == ms;
      r' := r;
    } else {
      var u := Step(r[|r| - 1], ns[0].t, ns[0].c);
      Longer(r, ms, ns[0]);
      r' := GoOn(r + [u], ms + [ns[0]], ns[1..], s');
      assert ms + [ns[0]] + ns[1..] == ms + ns;
    }
  }

  lemma Longer(r: seq<State>, ms: seq<Move>, x: Move)
    requires Trace(r, ms) && Known(r[|r| - 1], x.t)
    ensures Trace(r + [Step(r[|r| - 1], x.t, x.c)], ms + [x])
  {
    hide Step, Known, Start;
    var r1, m1 := r + [Step(r[|r| - 1], x.t, x.c)], ms + [x];
    forall i: nat | i < |m1| ensures Made(r1, m1, i) {
      if i < |ms| { assert Made(r, ms, i); }
    }
  }

  /**
   Every run, wherever it stands, can go on so that all calls return, no queue is left in the list, every message that
   any service has received has been dispatched, discarded or dropped, and of the services exactly those that have been
   retired are deleted and freed.
   */
  lemma EveryMessageCanSettle(r: seq<State>, ms: seq<Move>, worker: Tid) returns (r': seq<State>, ms': seq<Move>)
    requires Trace(r, ms) && worker in r[|r| - 1].acts
    ensures r <= r' && ms <= ms' && Trace(r', ms')
    ensures var s, s' := r[|r| - 1], r'[|r'| - 1];
      && AllIdle(s') && s'.global == [] && AllSettled(s')
      && forall h <- s.svc :: h in s'.svc && IsPrefix(s.svc[h].pushed, Msgs(s'.svc[h].settled))
  {
    hide Inv;
    var s := r[|r| - 1];
    TraceInv(r, ms, |ms|);
    var ns, u := FinishAll(s);
    var os, v := DrainAll(u, worker);
    LeadsOn(s, ns, u, os, v);
    OnwardOn(s, u, v);
    NothingLeft(v);
    r' := GoOn(r, ms, ns + os, v);
    ms' := ms + (ns + os);
    forall h <- s.svc ensures h in v.svc && IsPrefix(s.svc[h].pushed, Msgs(v.svc[h].settled)) {
      assert Grows(s.svc[h], v.svc[h]);
    }
  }

  // ----- requests are met -----

  lemma MovedTwice(s: State, t: Tid, a: Act, b: Act, h: Handle, v: Service, w: Service, g: seq<Handle>, g': seq<Handle>)
    ensures Moved(Moved(s, t, a, h, v, g), t, b, h, w, g') == Moved(s, t, b, h, w, g')
  {
  }

  /** A launch after `l` of its steps, if nothing comes in between. */
  function LaunchAct(h: Handle, l: nat): Act {
    if l == 1 then Creating(h)
    else if l == 2 then Releasing(h, Launch(h))
    else if l == 3 then Starting(h)
    else if l == 4 then Publishing(h, true)
    else if l == 5 then Reporting(h)
    else if l == 6 then Returned(h)
    else Idle
  }

  function LaunchState(s: State, t: Tid, h: Handle, l: nat): State {
    Moved(s, t, LaunchAct(h, l), h, NewService.(ref := if l < 3 then 2 else 1, init := l >= 4), if l >= 5 then s.global + [h] else s.global)
  }

  lemma LaunchStep(s: State, t: Tid, h: Handle, l: nat)
    requires Inv(s) && t in s.acts && h !in s.svc && 1 <= l < 7
    ensures Known(LaunchState(s, t, h, l), t) && Step(LaunchState(s, t, h, l), t, Go) == LaunchState(s, t, h, l + 1)
  {
    hide FineAt, ActOk;
    var u, w := LaunchState(s, t, h, l), LaunchState(s, t, h, l + 1);
    MovedTwice(s, t, u.acts[t], w.acts[t], h, u.svc[h], w.svc[h], u.global, w.global);
  }

  lemma {:induction false} LaunchSteps(s: State, t: Tid, h: Handle, l: nat) returns (ms: seq<Move>)
    requires Inv(s) && t in s.acts && h !in s.svc && 1 <= l <= 7
    ensures Leads(LaunchState(s, t, h, l), ms, LaunchState(s, t, h, 7))
    decreases 7 - l
  {
    hide Step, Inv, LaunchState, Known;
    ms := [];
    if l < 7 {
      LaunchStep(s, t, h, l);
      ms := LaunchSteps(s, t, h, l + 1);
      LeadsFirst(LaunchState(s, t, h, l), Move(t, Go), ms, LaunchState(s, t, h, 7));
      ms := [Move(t, Go)] + ms;
    }
  }

  /** A call that is idle can launch a service under any new handle: it is then registered, initialized and listed. */
  lemma LaunchWorks(s: State, t: Tid, h: Handle) returns (ms: seq<Move>)
    requires Inv(s) && t in s.acts && s.acts[t] == Idle && h !in s.svc
    ensures Leads(s, ms, State(s.svc[h := NewService.(ref := 1, init := true)], s.global + [h], s.acts))
  {
    InvKnown(s, t);
    ms := LaunchSteps(s, t, h, 1);
    assert Step(s, t, New(h)) == LaunchState(s, t, h, 1);
    LeadsFirst(s, Move(t, New(h)), ms, LaunchState(s, t, h, 7));
    ms := [Move(t, New(h))] + ms;
    assert s.acts[t := Idle] == s.acts;
  }

  /** A launch whose init fails after `l` of its steps, if nothing comes in between. */
  function FailAct(h: Handle, l: nat): Act {
    if l == 1 then Creating(h)
    else if l == 2 then Releasing(h, Withdraw(h))
    else if l == 3 then Retiring(h)
    else if l == 4 then Releasing(h, Dispose(h))
    else if l == 5 then Deleting(h, Dispose(h))
    else if l == 6 then Orphaned(h)
    else if l == 7 then Dropping(h)
    else Idle
  }

  function FailService(l: nat): Service {
    NewService.(registered := l < 4, ref := if l < 3 then 2 else if l < 5 then 1 else 0, release := l >= 6,
                deletions := if l >= 6 then 1 else 0, inGlobal := l < 8, frees := if l >= 8 then 1 else 0)
  }

  function FailState(s: State, t: Tid, h: Handle, l: nat): State { Moved(s, t, FailAct(h, l), h, FailService(l), s.global) }

  function FailChoice(l: nat): Choice { if l == 1 then Stop else Go }

  lemma FailStep(s: State, t: Tid, h: Handle, l: nat)
    requires Inv(s) && t in s.acts && h !in s.svc && 1 <= l < 8
    ensures Known(FailState(s, t, h, l), t) && Step(FailState(s, t, h, l), t, FailChoice(l)) == FailState(s, t, h, l + 1)
  {
    hide FineAt, ActOk;
    var u, w := FailState(s, t, h, l), FailState(s, t, h, l + 1);
    MovedTwice(s, t, u.acts[t], w.acts[t], h, u.svc[h], w.svc[h], u.global, w.global);
  }

  lemma {:induction false} FailSteps(s: State, t: Tid, h: Handle, l: nat) returns (ms: seq<Move>)
    requires Inv(s) && t in s.acts && h !in s.svc && 1 <= l <= 8
    ensures Leads(FailState(s, t, h, l), ms, FailState(s, t, h, 8))
    decreases 8 - l
  {
    hide Step, Inv, FailState, Known;
    ms := [];
    if l < 8 {
      FailStep(s, t, h, l);
      ms := FailSteps(s, t, h, l + 1);
      LeadsFirst(FailState(s, t, h, l), Move(t, FailChoice(l)), ms, FailState(s, t, h, 8));
      ms := [Move(t, FailChoice(l))] + ms;
    }
  }

  /** If init fails, the launch takes the service back: it is unregistered, deleted and freed, and was never listed. */
  lemma FailedLaunch(s: State, t: Tid, h: Handle) returns (ms: seq<Move>)
    requires Inv(s) && t in s.acts && s.acts[t] == Idle && h !in s.svc
    ensures |ms| >= 2 && ms[0] == Move(t, New(h)) && ms[1] == Move(t, Stop)
    ensures Leads(s, ms, State(s.svc[h := FailService(8)], s.global, s.acts))
    ensures var v := FailService(8); !v.registered && !v.init && v.deletions == 1 && v.frees == 1 && v.pushed == []
  {
    InvKnown(s, t);
    FailStep(s, t, h, 1);
    ms := FailSteps(s, t, h, 2);
    LeadsFirst(FailState(s, t, h, 1), Move(t, Stop), ms, FailState(s, t, h, 8));
    ms := [Move(t, Stop)] + ms;
    assert Step(s, t, New(h)) == FailState(s, t, h, 1);
    LeadsFirst(s, Move(t, New(h)), ms, FailState(s, t, h, 8));
    ms := [Move(t, New(h))] + ms;
    assert s.acts[t := Idle] == s.acts;
  }

  /** The two steps of a send to a registered service: the message is last in the queue, and the queue has a place. */
  lemma SendWorks(s: State, t: Tid, h: Handle, m: Msg)
    requires Inv(s) && t in s.acts && s.acts[t] == Idle && h in s.svc && s.svc[h].registered
    ensures Known(s, t) && Known(Step(s, t, Send(h, m)), t)
    ensures var u := Step(Step(s, t, Send(h, m)), t, Go);
      && h in u.svc && u.svc[h].contents == s.svc[h].contents + [m]
      && (h in u.global || exists k :: k in u.acts && Keeps(u.acts[k], h))
  {
    hide Inv;
    StepOnward(s, t, Send(h, m));
    var v := Step(s, t, Send(h, m));
    StepOnward(v, t, Go);
    HasPlace(Step(v, t, Go), h);
  }

  lemma HasPlace(s: State, h: Handle)
    requires Inv(s) && h in s.svc && s.svc[h].contents != []
    ensures h in s.global || exists k :: k in s.acts && Keeps(s.acts[k], h)
  {
    assert FineAt(s, h);
    if h !in s.global {
      assert Players(s.acts, KeepRole(h)) != {};
      var k :| k in Players(s.acts, KeepRole(h));
      assert Keeps(s.acts[k], h);
    }
  }

  /** A kill unregisters the service, now and for good. */
  lemma KillWorks(r: seq<State>, ms: seq<Move>, i: nat, j: nat, h: Handle)
    requires Trace(r, ms) && i < j <= |ms| && ms[i].c == Kill(h)
    requires ms[i].t in r[i].acts && r[i].acts[ms[i].t] == Idle && h in r[i].svc
    ensures h in r[j].svc && !r[j].svc[h].registered
  {
    hide Inv;
    assert Made(r, ms, i);
    StaysRetired(r, ms, i + 1, j, h);
  }

  lemma {:induction false} StaysRetired(r: seq<State>, ms: seq<Move>, i: nat, j: nat, h: Handle)
    requires Trace(r, ms) && i <= j <= |ms| && h in r[i].svc && !r[i].svc[h].registered
    ensures h in r[j].svc && !r[j].svc[h].registered
  {
    hide Inv, Step;
    if i < j {
      StaysRetired(r, ms, i, j - 1, h);
      TraceInv(r, ms, j - 1);
      assert Made(r, ms, j - 1);
      StepEvolves(r[j - 1], ms[j - 1].t, ms[j - 1].c);
    }
  }

  /** Every run has its moves. */
  lemma {:induction false} RunHasMoves(r: seq<State>) returns (ms: seq<Move>)
    requires Run(r)
    ensures Trace(r, ms)
  {
    hide Step, Known, Start;
    if |r| == 1 {
      ms := [];
    } else {
      var q, n := r[..|r| - 1], |r| - 2;
      forall i: nat | i + 1 < |q| ensures StepAt(q, i) { assert StepAt(r, i); }
      ms := RunHasMoves(q);
      assert StepAt(r, n);
      var t, c :| Known(r[n], t) && r[n + 1] == Step(r[n], t, c);
      Longer(q, ms, Move(t, c));
      assert r == q + [r[n + 1]];
      ms := ms + [Move(t, c)];
    }
  }
}
