/**
 The history of a queue, told by what the calls did: which messages were accepted, in which order they were pushed, and
 what ended their way.
 */
module SchedulerHistory {

  import opened Scheduler
  import opened SchedulerInvariant

  /** Call `t` takes its next step, with choice `c`. */
  datatype Move = Move(t: Tid, c: Choice)

  /** The states of a run, with the moves between them. */
  ghost predicate Trace(r: seq<State>, ms: seq<Move>) {
    |r| == |ms| + 1 && Start(r[0]) && forall i: nat | i < |ms| :: Made(r, ms, i)
  }

  ghost predicate Made(r: seq<State>, ms: seq<Move>, i: nat)
    requires i < |ms| < |r|
  {
    Known(r[i], ms[i].t) && r[i + 1] == Step(r[i], ms[i].t, ms[i].c)
  }

  // ----- what the calls did -----

  /** An idle call asks for a message to be sent to a registered service. */
  predicate Accepts(s: State, x: Move, h: Handle) {
    x.t in s.acts && s.acts[x.t] == Idle && x.c.Send? && x.c.h == h && h in s.svc && s.svc[h].registered
  }

  /** The messages accepted for a service in the first `n` moves. */
  function Accepted(r: seq<State>, ms: seq<Move>, h: Handle, n: nat): seq<Msg>
    requires n <= |ms| < |r|
  {
    if n == 0 then []
    else Accepted(r, ms, h, n - 1) + if Accepts(r[n - 1], ms[n - 1], h) then [ms[n - 1].c.m] else []
  }

  function Now(s: State, x: Move): Act { if x.t in s.acts then s.acts[x.t] else Idle }

  function PushedNow(s: State, x: Move, h: Handle): seq<Msg> {
    var a := Now(s, x);
    if a.Sending? && a.h == h then [a.m] else []
  }

  function SettledNow(s: State, x: Move, h: Handle): seq<(Msg, Fate)> {
    var a := Now(s, x);
    if a.Calling? && a.q == h then [(a.m, if x.c.Discard? then Discarded else Dispatched)]
    else if a.DroppingMsg? && a.q == h then [(a.m, Dropped)]
    else []
  }

  /** The messages of the calls that were about to push, in the order in which they went on. */
  function Arrivals(r: seq<State>, ms: seq<Move>, h: Handle, n: nat): seq<Msg>
    requires n <= |ms| < |r|
  {
    if n == 0 then [] else Arrivals(r, ms, h, n - 1) + PushedNow(r[n - 1], ms[n - 1], h)
  }

  /** The messages of the callbacks and drops that ended, and how, in that order. */
  function Departures(r: seq<State>, ms: seq<Move>, h: Handle, n: nat): seq<(Msg, Fate)>
    requires n <= |ms| < |r|
  {
    if n == 0 then [] else Departures(r, ms, h, n - 1) + SettledNow(r[n - 1], ms[n - 1], h)
  }

  // ----- one move -----

  function NextService(s: State, h: Handle): Service { if h in s.svc then s.svc[h] else NewService }

  /** A service and what a call does to it, in one step. */
  ghost predicate Changes(s: State, x: Move, s': State, h: Handle) {
    var v, w := NextService(s, h), NextService(s', h);
    w.pushed == v.pushed + PushedNow(s, x, h) && w.settled == v.settled + SettledNow(s, x, h)
  }

  lemma MovedChanges(s: State, x: Move, a: Act, g: Handle, w: Service, global: seq<Handle>, h: Handle)
    requires var v := NextService(s, g); w.pushed == v.pushed + PushedNow(s, x, g) && w.settled == v.settled + SettledNow(s, x, g)
    requires h != g ==> PushedNow(s, x, h) == [] && SettledNow(s, x, h) == []
    ensures Changes(s, x, Moved(s, x.t, a, g, w, global), h)
  {
  }

  lemma IdleHistory(s: State, x: Move, h: Handle)
    requires Known(s, x.t) && s.acts[x.t] == Idle
    ensures Changes(s, x, Step(s, x.t, x.c), h)
  {
    hide Moved, Changes;
    if x.c.Send? || x.c.Touch? || x.c.Kill? {
      var g := x.c.h;
      if g in s.svc && s.svc[g].registered {
        MovedChanges(s, x, Sending(g, if x.c.Send? then x.c.m else 0), g, s.svc[g].(ref := s.svc[g].ref + 1), s.global, h);
        MovedChanges(s, x, Releasing(g, Rest), g, s.svc[g].(ref := s.svc[g].ref + 1), s.global, h);
        MovedChanges(s, x, Releasing(g, Rest), g, s.svc[g].(registered := false), s.global, h);
      } else {
        StillSame(s, x, s, h);
      }
    } else if x.c.New? && x.c.h !in s.svc {
      MovedChanges(s, x, Creating(x.c.h), x.c.h, NewService, s.global, h);
    } else {
      StillSame(s, x, Step(s, x.t, x.c), h);
    }
  }

  lemma StillSame(s: State, x: Move, s': State, h: Handle)
    requires Now(s, x) == Idle && s'.svc == s.svc
    ensures Changes(s, x, s', h)
  {
  }

  /** What one step does to the history of each service. */
  lemma StepHistory(s: State, x: Move, h: Handle)
    requires Inv(s) && Known(s, x.t)
    ensures Changes(s, x, Step(s, x.t, x.c), h)
  {
    hide Changes, Step;
    if s.acts[x.t] == Idle {
      IdleHistory(s, x, h);
    } else {
      SubjectKnown(s, x.t);
      var g, b := Subject(s.acts[x.t]), s.acts[x.t];
      if b.Served? && s.global != [] {
        SwapStep(s, x.t, x.c);
        MovedChanges(s, x, Swapping(g, s.global[0]), g, s.svc[g], s.global[1..], h);
      } else {
        At(s, x.t, g);
        var p := Planned(s, x.t, x.c, NumbersOf(s, g));
        PlanHistory(s, x, p);
        MovedChanges(s, x, p.a, g, p.w, if p.listing then s.global + [g] else s.global, h);
      }
    }
  }

  lemma SwapStep(s: State, t: Tid, c: Choice)
    requires Known(s, t) && s.acts[t].Served? && s.global != []
    ensures var q := s.acts[t].q; Step(s, t, c) == Moved(s, t, Swapping(q, s.global[0]), q, s.svc[q], s.global[1..])
  {
  }

  lemma PlanHistory(s: State, x: Move, p: Plan)
    requires Known(s, x.t) && s.acts[x.t] != Idle && !(s.acts[x.t].Served? && s.global != []) && p.h == Subject(s.acts[x.t])
    requires p.h in s.svc && Step(s, x.t, x.c) == Moved(s, x.t, p.a, p.h, p.w, if p.listing then s.global + [p.h] else s.global)
    ensures p.w.pushed == s.svc[p.h].pushed + PushedNow(s, x, p.h)
    ensures p.w.settled == s.svc[p.h].settled + SettledNow(s, x, p.h)
  {
    var s' := Step(s, x.t, x.c);
    assert s'.svc[p.h] == p.w;
  }

  // ----- whole runs -----

  lemma {:induction false} TraceInv(r: seq<State>, ms: seq<Move>, i: nat)
    requires Trace(r, ms) && i <= |ms|
    ensures Inv(r[i])
  {
    if i == 0 {
      StartInv(r[0]);
    } else {
      TraceInv(r, ms, i - 1);
      assert Made(r, ms, i - 1);
      StepKeeps(r[i - 1], ms[i - 1].t, ms[i - 1].c);
    }
  }

  /**
   In every run, what a queue has ever received are the messages of the calls that went through their push, in that
   order, and what has left it are the messages of the callbacks and drops that ended, in that order.
   */
  lemma {:induction false} History(r: seq<State>, ms: seq<Move>, n: nat, h: Handle)
    requires Trace(r, ms) && n <= |ms|
    ensures NextService(r[n], h).pushed == Arrivals(r, ms, h, n)
    ensures NextService(r[n], h).settled == Departures(r, ms, h, n)
  {
    hide Step, Inv;
    if n > 0 {
      History(r, ms, n - 1, h);
      TraceInv(r, ms, n - 1);
      assert Made(r, ms, n - 1);
      StepHistory(r[n - 1], ms[n - 1], h);
    }
  }

  /** A message is dropped only from the queue of a context that has been deleted, and dispatched only by a callback. */
  lemma FateMeans(r: seq<State>, ms: seq<Move>, i: nat, h: Handle)
    requires Trace(r, ms) && i < |ms| && h in r[i].svc
    ensures SettledNow(r[i], ms[i], h) != [] ==>
      (SettledNow(r[i], ms[i], h)[0].1 == Dropped <==> r[i].svc[h].deletions == 1)
    ensures SettledNow(r[i], ms[i], h) != [] ==> r[i].svc[h].flight == [SettledNow(r[i], ms[i], h)[0].0]
  {
    TraceInv(r, ms, i);
    assert Made(r, ms, i);
    var t := ms[i].t;
    assert ActOk(r[i].svc, r[i].acts[t]) && FineAt(r[i], h);
    At(r[i], t, h);
  }

  // ----- the global queue -----

  /** The call has taken the queue at the head of the list. */
  predicate Takes(a: Act, h: Handle) { a == Holding(h) || (a.Swapping? && a.other == h) }

  /** The list of queues is first in, first out: a step takes at most its head, and appends at most one. */
  lemma GlobalFifo(s: State, x: Move)
    requires Known(s, x.t)
    ensures var g, g' := s.global, Step(s, x.t, x.c).global; var a := Step(s, x.t, x.c).acts[x.t];
      || g' == g || (exists h :: g' == g + [h])
      || (g != [] && g' == g[1..] && Takes(a, g[0]) && (s.acts[x.t].Idle? || s.acts[x.t].Served?))
  {
    if s.acts[x.t] == Idle { IdleFifo(s, x); } else { BusyFifo(s, x); }
  }

  lemma IdleFifo(s: State, x: Move)
    requires Known(s, x.t) && s.acts[x.t] == Idle
    ensures var s' := Step(s, x.t, x.c);
      s'.global == s.global || (s.global != [] && s'.global == s.global[1..] && Takes(s'.acts[x.t], s.global[0]))
  {
  }

  lemma BusyFifo(s: State, x: Move)
    requires Known(s, x.t) && s.acts[x.t] != Idle
    ensures var g, s' := s.global, Step(s, x.t, x.c);
      || s'.global == g || s'.global == g + [Subject(s.acts[x.t])]
      || (g != [] && s'.global == g[1..] && Takes(s'.acts[x.t], g[0]) && s.acts[x.t].Served?)
  {
  }

  // ----- every accepted message -----

  /** The calls that are about to push message `m`. */
  ghost function Senders(acts: map<Tid, Act>, h: Handle, m: Msg): set<Tid> { set t | t in acts && acts[t] == Sending(h, m) }

  lemma OneOut(p: set<Tid>, t: Tid)
    ensures |p| == |p - {t}| + One(t in p)
  {
    if t in p { assert p == (p - {t}) + {t}; } else { assert p == p - {t}; }
  }

  lemma SendersUpdate(acts: map<Tid, Act>, t: Tid, a: Act, h: Handle, m: Msg)
    requires t in acts
    ensures |Senders(acts[t := a], h, m)| + One(acts[t] == Sending(h, m)) == |Senders(acts, h, m)| + One(a == Sending(h, m))
  {
    var p, p' := Senders(acts, h, m), Senders(acts[t := a], h, m);
    assert p' - {t} == p - {t};
    OneOut(p, t);
    OneOut(p', t);
  }

  /** A step starts a send exactly where a message is accepted. */
  lemma StepActs(s: State, x: Move, h: Handle, m: Msg)
    requires Known(s, x.t)
    ensures var s' := Step(s, x.t, x.c);
      && x.t in s'.acts && s'.acts == s.acts[x.t := s'.acts[x.t]]
      && (s'.acts[x.t] == Sending(h, m) <==> Accepts(s, x, h) && x.c.m == m)
  {
    if s.acts[x.t] == Idle { IdleActs(s, x, h, m); } else { BusyActs(s, x); }
  }

  lemma IdleActs(s: State, x: Move, h: Handle, m: Msg)
    requires Known(s, x.t) && s.acts[x.t] == Idle
    ensures var s' := Step(s, x.t, x.c);
      && x.t in s'.acts && s'.acts == s.acts[x.t := s'.acts[x.t]]
      && (s'.acts[x.t] == Sending(h, m) <==> Accepts(s, x, h) && x.c.m == m)
  {
    assert s.acts == s.acts[x.t := s.acts[x.t]];
  }

  lemma BusyActs(s: State, x: Move)
    requires Known(s, x.t) && s.acts[x.t] != Idle
    ensures var s' := Step(s, x.t, x.c);
      x.t in s'.acts && s'.acts == s.acts[x.t := s'.acts[x.t]] && !s'.acts[x.t].Sending?
  {
  }

  ghost function Times(s: seq<Msg>, m: Msg): nat { multiset(s)[m] }

  lemma TimesLast(s: seq<Msg>, t: seq<Msg>, m: Msg)
    ensures Times(s + t, m) == Times(s, m) + Times(t, m)
  {
  }

  /** Every accepted message has been pushed once, or its sender is still about to push it. */
  lemma {:induction false} AcceptedArrive(r: seq<State>, ms: seq<Move>, n: nat, h: Handle, m: Msg)
    requires Trace(r, ms) && n <= |ms|
    ensures Times(Accepted(r, ms, h, n), m) == Times(NextService(r[n], h).pushed, m) + |Senders(r[n].acts, h, m)|
  {
    hide Step, Inv, Times;
    if n == 0 {
      NobodySends(r[0], h, m);
    } else {
      var s, x := r[n - 1], ms[n - 1];
      AcceptedArrive(r, ms, n - 1, h, m);
      TraceInv(r, ms, n - 1);
      assert Made(r, ms, n - 1);
      StepHistory(s, x, h);
      StepActs(s, x, h, m);
      SendersUpdate(s.acts, x.t, r[n].acts[x.t], h, m);
      TimesLast(Accepted(r, ms, h, n - 1), if Accepts(s, x, h) then [x.c.m] else [], m);
      TimesLast(NextService(s, h).pushed, PushedNow(s, x, h), m);
      TimesFew(m);
    }
  }

  lemma TimesFew(m: Msg)
    ensures Times([], m) == 0 && forall k :: Times([k], m) == One(k == m)
  {
  }

  lemma NobodySends(s: State, h: Handle, m: Msg)
    requires Start(s)
    ensures Senders(s.acts, h, m) == {} && NextService(s, h).pushed == [] && Times([], m) == 0
  {
  }
}
