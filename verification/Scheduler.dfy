/**
 The actor scheduler as a machine of atomic steps: services with their context and message queue, the global run
 queue, and any number of calls in progress.

 Every section under a spin lock or the registry lock is one step. A call made from inside another one (a callback
 that sends, kills or launches) is a call in progress of its own, which allows more interleavings than a stack of
 calls would.
 */
module Scheduler {

  type Handle = nat
  type Msg = nat
  type Tid = nat

  /** What became of a message. */
  datatype Fate = Dispatched | Discarded | Dropped

  /** `struct skynet_context` and `struct message_queue` of one handle, with the history of the queue. */
  datatype Service = Service(
    registered: bool, init: bool, ref: int, deletions: nat,
    inGlobal: bool, release: bool, contents: seq<Msg>, frees: nat,
    pushed: seq<Msg>, flight: seq<Msg>, settled: seq<(Msg, Fate)>)

  /** What a call does once it has let go of a context. */
  datatype After =
    | Rest                  // return
    | Hold(q: Handle)       // the worker goes on with a queue
    | Launch(q: Handle)     // `skynet_context_new` after a successful init
    | Withdraw(q: Handle)   // `skynet_context_new` after a failed init
    | Dispose(q: Handle)    // `skynet_context_new` after it retired the handle

  /** A call in progress, by the step it takes next. */
  datatype Act =
    | Idle
    | Sending(h: Handle, m: Msg)           // grabbed; pushes
    | Creating(h: Handle)                  // runs init
    | Starting(h: Handle)                  // stores `ctx->init`
    | Publishing(h: Handle, alive: bool)   // first push of the queue; `alive` if the release left the context
    | Reporting(h: Handle)                 // reads the handle in the context for the log line
    | Returned(h: Handle)                  // the caller of the launch reads the handle in the context
    | Retiring(h: Handle)                  // retires the handle of a failed launch
    | Holding(q: Handle)                   // worker with a queue; grabs the context
    | Orphaned(q: Handle)                  // the grab failed; `skynet_mq_release`
    | Dropping(q: Handle)                  // `_drop_queue`; pops
    | DroppingMsg(q: Handle, m: Msg)       // `drop_func`
    | Serving(q: Handle)                   // pops a message
    | Calling(q: Handle, m: Msg)           // the callback runs
    | Served(q: Handle)                    // looks for another queue
    | Swapping(q: Handle, other: Handle)   // pushes its queue back
    | Releasing(h: Handle, next: After)     // drops its reference
    | Deleting(h: Handle, next: After)      // the last reference is gone; `delete_context`

  datatype State = State(svc: map<Handle, Service>, global: seq<Handle>, acts: map<Tid, Act>)

  // ----- steps -----

  /** What a call chooses, where it has a choice. */
  datatype Choice =
    | Go | Stop | Discard(more: bool)
    | Send(h: Handle, m: Msg) | Touch(h: Handle) | Kill(h: Handle) | New(h: Handle) | Take

  function Resume(next: After, alive: bool): Act {
    match next
    case Rest => Idle
    case Hold(q) => Holding(q)
    case Launch(q) => if alive then Starting(q) else Publishing(q, false)
    case Withdraw(q) => Retiring(q)
    case Dispose(q) => Orphaned(q)
  }

  const NewService :=
    Service(registered := true, init := false, ref := 2, deletions := 0, inGlobal := true, release := false,
            contents := [], frees := 0, pushed := [], flight := [], settled := [])

  /** One call moves on, and with it at most one service and the global queue. */
  function Moved(s: State, t: Tid, a: Act, h: Handle, v: Service, global: seq<Handle>): State {
    State(s.svc[h := v], global, s.acts[t := a])
  }

  /** Everything a call refers to exists. */
  ghost predicate Known(s: State, t: Tid) {
    t in s.acts && (forall h :: Mentions(s.acts[t], h) ==> h in s.svc) && (forall h <- s.global :: h in s.svc)
  }

  predicate Mentions(a: Act, h: Handle) { RefersTo(a, h) || Keeps(a, h) || Deletes(a, h) || Peeks(a, h) }

  function Step(s: State, t: Tid, c: Choice): State
    requires Known(s, t)
  {
    var a := s.acts[t];
    assert forall h :: RefersTo(a, h) || Keeps(a, h) || Deletes(a, h) || Peeks(a, h) ==> Mentions(a, h);
    match a
    case Idle => StepIdle(s, t, c)
    case Sending(h, m) =>
      var v := s.svc[h];
      Moved(s, t, Releasing(h, Rest), h, Pushed(v, m), if v.inGlobal then s.global else s.global + [h])
    case Creating(h) => Moved(s, t, Releasing(h, if c == Stop then Withdraw(h) else Launch(h)), h, s.svc[h], s.global)
    case Starting(h) => Moved(s, t, Publishing(h, true), h, s.svc[h].(init := true), s.global)
    case Publishing(h, alive) => Moved(s, t, if alive then Reporting(h) else Idle, h, s.svc[h], s.global + [h])
    case Reporting(h) => Moved(s, t, Returned(h), h, s.svc[h], s.global)
    case Returned(h) => Moved(s, t, Idle, h, s.svc[h], s.global)
    case Retiring(h) =>
      var v := s.svc[h];
      Moved(s, t, if v.registered then Releasing(h, Dispose(h)) else Orphaned(h), h, v.(registered := false), s.global)
    case Holding(q) =>
      var v := s.svc[q];
      if v.registered then Moved(s, t, Serving(q), q, v.(ref := v.ref + 1), s.global)
      else Moved(s, t, Orphaned(q), q, v, s.global)
    case Orphaned(q) =>
      var v := s.svc[q];
      if v.release then Moved(s, t, Dropping(q), q, v, s.global)
      else Moved(s, t, Idle, q, v, s.global + [q])
    case Dropping(q) =>
      var v := s.svc[q];
      if v.contents != [] then Moved(s, t, DroppingMsg(q, v.contents[0]), q, Popped(v), s.global)
      else Moved(s, t, Idle, q, v.(inGlobal := false, frees := v.frees + 1), s.global)
    case DroppingMsg(q, m) => Moved(s, t, Dropping(q), q, Settled(s.svc[q], m, Dropped), s.global)
    case Serving(q) =>
      var v := s.svc[q];
      if v.contents != [] then Moved(s, t, Calling(q, v.contents[0]), q, Popped(v), s.global)
      else Moved(s, t, Releasing(q, Rest), q, v.(inGlobal := false), s.global)
    case Calling(q, m) =>
      Moved(s, t, if c == Go || c == Discard(true) then Serving(q) else Served(q), q,
            Settled(s.svc[q], m, if c.Discard? then Discarded else Dispatched), s.global)
    case Served(q) =>
      if s.global == [] then Moved(s, t, Releasing(q, Hold(q)), q, s.svc[q], s.global)
      else Moved(s, t, Swapping(q, s.global[0]), q, s.svc[q], s.global[1..])
    case Swapping(q, other) => Moved(s, t, Releasing(q, Hold(other)), q, s.svc[q], s.global + [q])
    case Releasing(h, next) =>
      var v := s.svc[h];
      Moved(s, t, if v.ref - 1 == 0 then Deleting(h, next) else Resume(next, true), h, v.(ref := v.ref - 1), s.global)
    case Deleting(h, next) =>
      var v := s.svc[h];
      Moved(s, t, Resume(next, false), h, v.(release := true, deletions := v.deletions + 1),
            if v.inGlobal then s.global else s.global + [h])
  }

  function StepIdle(s: State, t: Tid, c: Choice): State
    requires t in s.acts
  {
    match c
    case Send(h, m) =>
      if h in s.svc && s.svc[h].registered
      then Moved(s, t, Sending(h, m), h, s.svc[h].(ref := s.svc[h].ref + 1), s.global) else s
    case Touch(h) =>
      if h in s.svc && s.svc[h].registered
      then Moved(s, t, Releasing(h, Rest), h, s.svc[h].(ref := s.svc[h].ref + 1), s.global) else s
    case Kill(h) =>
      if h in s.svc && s.svc[h].registered
      then Moved(s, t, Releasing(h, Rest), h, s.svc[h].(registered := false), s.global) else s
    case New(h) => if h in s.svc then s else Moved(s, t, Creating(h), h, NewService, s.global)
    case Take => if s.global == [] then s else s.(global := s.global[1..], acts := s.acts[t := Holding(s.global[0])])
    case _ => s
  }

  /** `skynet_mq_push` */
  function Pushed(v: Service, m: Msg): Service {
    v.(contents := v.contents + [m], pushed := v.pushed + [m], inGlobal := true)
  }

  /** `skynet_mq_pop` of a message */
  function Popped(v: Service): Service
    requires v.contents != []
  {
    v.(contents := v.contents[1..], flight := v.flight + [v.contents[0]])
  }

  function Settled(v: Service, m: Msg, f: Fate): Service {
    v.(flight := [], settled := v.settled + [(m, f)])
  }

  // ----- what a call holds -----

  /** The call owns a reference that `ctx->ref` counts. */
  predicate RefersTo(a: Act, h: Handle) {
    match a
    case Sending(h1, _) => h1 == h
    case Creating(h1) => h1 == h
    case Serving(q) => q == h
    case Calling(q, _) => q == h
    case Served(q) => q == h
    case Swapping(q, _) => q == h
    case Releasing(h1, _) => h1 == h
    case _ => false
  }

  predicate Awaits(n: After, h: Handle) { !n.Rest? && n.q == h }

  /** The call has the queue in hand: nobody else may run or free it. */
  predicate Keeps(a: Act, h: Handle) {
    match a
    case Idle => false
    case Sending(_, _) => false
    case Creating(h1) => h1 == h
    case Starting(h1) => h1 == h
    case Publishing(h1, _) => h1 == h
    case Reporting(_) => false
    case Returned(_) => false
    case Retiring(h1) => h1 == h
    case Holding(q) => q == h
    case Orphaned(q) => q == h
    case Dropping(q) => q == h
    case DroppingMsg(q, _) => q == h
    case Serving(q) => q == h
    case Calling(q, _) => q == h
    case Served(q) => q == h
    case Swapping(q, other) => q == h || other == h
    case Releasing(_, next) => Awaits(next, h)
    case Deleting(_, next) => Awaits(next, h)
  }

  predicate Deletes(a: Act, h: Handle) { a.Deleting? && a.h == h }

  /** The call is about to touch a context to which it has no reference any more. */
  predicate Peeks(a: Act, h: Handle) { (a.Starting? || a.Reporting? || a.Returned?) && a.h == h }

  datatype Role = RefRole(h: Handle) | KeepRole(h: Handle) | DeleteRole(h: Handle)

  predicate Plays(a: Act, r: Role) {
    match r
    case RefRole(h) => RefersTo(a, h)
    case KeepRole(h) => Keeps(a, h)
    case DeleteRole(h) => Deletes(a, h)
  }

  ghost function Players(acts: map<Tid, Act>, r: Role): set<Tid> { set t | t in acts && Plays(acts[t], r) }

  ghost function Count(acts: map<Tid, Act>, r: Role): nat { |Players(acts, r)| }

  ghost function One(b: bool): nat { if b then 1 else 0 }

  lemma CountUpdate(acts: map<Tid, Act>, t: Tid, a: Act, r: Role)
    requires t in acts
    ensures Count(acts[t := a], r) + One(Plays(acts[t], r)) == Count(acts, r) + One(Plays(a, r))
  {
    var p, p' := Players(acts, r), Players(acts[t := a], r);
    assert p' - {t} == p - {t};
    assert p == if Plays(acts[t], r) then (p - {t}) + {t} else p - {t};
    assert p' == if Plays(a, r) then (p' - {t}) + {t} else p' - {t};
  }

  lemma CountTwo(acts: map<Tid, Act>, t: Tid, u: Tid, r: Role)
    requires t in acts && u in acts && Plays(acts[t], r)
    ensures Count(acts, r) >= 1
    ensures t != u && Plays(acts[u], r) ==> Count(acts, r) >= 2
  {
    var p := Players(acts, r);
    assert t in p && p == (p - {t}) + {t};
    if t != u && Plays(acts[u], r) {
      assert u in p && p - {t} == (p - {t} - {u}) + {u};
    }
  }

  // ----- runs -----

  ghost predicate Start(s: State) {
    s.svc == map[] && s.global == [] && forall t <- s.acts :: s.acts[t] == Idle
  }

  ghost predicate Next(s: State, s': State) {
    exists t, c :: Known(s, t) && s' == Step(s, t, c)
  }

  ghost predicate StepAt(r: seq<State>, i: nat)
    requires i + 1 < |r|
  {
    Next(r[i], r[i + 1])
  }

  /** Any interleaving of any number of calls. */
  ghost predicate Run(r: seq<State>) {
    |r| > 0 && Start(r[0]) && forall i: nat | i + 1 < |r| :: StepAt(r, i)
  }
}
