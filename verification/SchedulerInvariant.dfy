/**
 The invariant of the scheduler, and the proof that every step keeps it.
 */
module SchedulerInvariant {

  import opened Scheduler

  // ----- the invariant -----

  /** A queue may be taken up by a worker: init is over, or nobody can grab the context any more. */
  predicate Ready(v: Service) { (v.init || !v.registered) && v.flight == [] }

  function Msgs(s: seq<(Msg, Fate)>): seq<Msg> { seq(|s|, i requires 0 <= i < |s| => s[i].0) }

  ghost function Listed(global: seq<Handle>, h: Handle): int { multiset(global)[h] }

  /** One service against the number of references, of keepers, of entries in the global queue and of deleters. */
  predicate Fine(v: Service, refs: int, keeps: int, listed: int, deleters: int) {
    && v.ref == refs + (if v.registered then 1 else 0)
    && keeps + listed == (if v.frees == 0 && (v.inGlobal || v.release) then 1 else 0)
    && deleters == (if v.ref == 0 && !v.release then 1 else 0)
    && v.deletions == (if v.release then 1 else 0)
    && (v.release ==> v.ref == 0)
    && v.frees <= v.deletions
    && (v.frees > 0 ==> v.contents == [] && v.flight == [])
    && (!v.inGlobal ==> v.contents == [])
    && (keeps == 0 ==> Ready(v))
    && v.pushed == Msgs(v.settled) + v.flight + v.contents
  }

  ghost predicate FineAt(s: State, h: Handle)
    requires h in s.svc
  {
    Fine(s.svc[h], Count(s.acts, RefRole(h)), Count(s.acts, KeepRole(h)), Listed(s.global, h), Count(s.acts, DeleteRole(h)))
  }

  predicate NextOk(svc: map<Handle, Service>, n: After) {
    && (!n.Rest? ==> n.q in svc && svc[n.q].flight == [])
    && (n.Hold? ==> Ready(svc[n.q]))
    && (n.Dispose? ==> !svc[n.q].registered)
  }

  /** What a call knows about the queue it keeps. */
  predicate ActOk(svc: map<Handle, Service>, a: Act) {
    match a
    case Idle => true
    case Sending(h, _) => h in svc
    case Creating(h) => h in svc && svc[h].flight == []
    case Starting(h) => h in svc && svc[h].flight == []
    case Publishing(h, _) => h in svc && Ready(svc[h])
    case Reporting(h) => h in svc
    case Returned(h) => h in svc
    case Retiring(h) => h in svc && svc[h].flight == []
    case Holding(q) => q in svc && Ready(svc[q])
    case Orphaned(q) => q in svc && Ready(svc[q]) && !svc[q].registered
    case Dropping(q) => q in svc && Ready(svc[q]) && !svc[q].registered && svc[q].release
    case DroppingMsg(q, m) => q in svc && svc[q].flight == [m] && !svc[q].registered && svc[q].release
    case Serving(q) => q in svc && svc[q].init && svc[q].flight == []
    case Calling(q, m) => q in svc && svc[q].init && svc[q].flight == [m]
    case Served(q) => q in svc && svc[q].init && svc[q].flight == []
    case Swapping(q, other) => q in svc && other in svc && q != other && svc[q].init && svc[q].flight == [] && Ready(svc[other])
    case Releasing(h, next) => h in svc && NextOk(svc, next) && (next.Launch? || next.Withdraw? || next.Dispose? ==> next.q == h)
    case Deleting(h, next) => h in svc && NextOk(svc, next) && (next.Launch? || next.Withdraw? || next.Dispose? ==> next.q == h)
  }

  ghost predicate Inv(s: State) {
    && (forall h <- s.svc :: FineAt(s, h))
    && (forall t <- s.acts :: ActOk(s.svc, s.acts[t]))
    && (forall h <- s.global :: h in s.svc)
  }

  lemma InvKnown(s: State, t: Tid)
    requires Inv(s) && t in s.acts
    ensures Known(s, t)
  {
    assert ActOk(s.svc, s.acts[t]);
  }

  lemma StartInv(s: State)
    requires Start(s)
    ensures Inv(s)
  {
  }

  // ----- every step keeps the invariant -----

  /** A change of a service that other calls do not notice. */
  predicate Soft(v: Service, w: Service) {
    && (v.init ==> w.init) && (w.registered ==> v.registered) && (v.release ==> w.release) && v.flight == w.flight
  }

  lemma ActStable(svc: map<Handle, Service>, h: Handle, w: Service, a: Act)
    requires ActOk(svc, a) && (h in svc && Keeps(a, h) ==> Soft(svc[h], w))
    requires h !in svc ==> !Mentions(a, h)
    ensures ActOk(svc[h := w], a)
  {
  }

  /** The numbers of a service that the step does not change stay as they are, or move between hand and list. */
  ghost predicate Untouched(s: State, t: Tid, a: Act, global: seq<Handle>, h: Handle)
    requires t in s.acts
  {
    && RefersTo(a, h) == RefersTo(s.acts[t], h) && Deletes(a, h) == Deletes(s.acts[t], h)
    && One(Keeps(a, h)) + Listed(global, h) == One(Keeps(s.acts[t], h)) + Listed(s.global, h)
    && (Keeps(s.acts[t], h) && !Keeps(a, h) ==> h in s.svc && Ready(s.svc[h]))
  }

  lemma FineFrame(s: State, t: Tid, a: Act, h: Handle, v: Service, global: seq<Handle>, g: Handle)
    requires t in s.acts && g in s.svc && FineAt(s, g) && g != h && Untouched(s, t, a, global, g)
    ensures FineAt(Moved(s, t, a, h, v, global), g)
  {
    CountUpdate(s.acts, t, a, RefRole(g));
    CountUpdate(s.acts, t, a, KeepRole(g));
    CountUpdate(s.acts, t, a, DeleteRole(g));
  }

  predicate IsPrefix<T(==)>(a: seq<T>, b: seq<T>) { |a| <= |b| && forall k :: 0 <= k < |a| ==> a[k] == b[k] }

  /** The history of a service only grows. */
  predicate Grows(v: Service, w: Service) {
    && IsPrefix(v.pushed, w.pushed) && IsPrefix(v.settled, w.settled)
    && v.deletions <= w.deletions && v.frees <= w.frees
    && (w.registered ==> v.registered) && (v.init ==> w.init)
    && (v.pushed != w.pushed ==> v.deletions == 0)
  }

  ghost predicate Evolves(s: State, s': State) {
    forall h <- s.svc :: h in s'.svc && Grows(s.svc[h], s'.svc[h])
  }

  /** How many calls refer to a service, keep its queue and delete it, and how often the queue is listed. */
  datatype Numbers = Numbers(refs: int, keeps: int, listed: int, deleters: int)

  ghost function NumbersOf(s: State, h: Handle): Numbers {
    Numbers(Count(s.acts, RefRole(h)), Count(s.acts, KeepRole(h)), Listed(s.global, h), Count(s.acts, DeleteRole(h)))
  }

  /** The numbers once a call has gone from `b` to `a` and the listing has changed by `d`. */
  ghost function Shifted(n: Numbers, b: Act, a: Act, h: Handle, d: int): Numbers {
    Numbers(n.refs + One(RefersTo(a, h)) - One(RefersTo(b, h)), n.keeps + One(Keeps(a, h)) - One(Keeps(b, h)),
            n.listed + d, n.deleters + One(Deletes(a, h)) - One(Deletes(b, h)))
  }

  /** What holds of service `h` before a step of a call at `b`. */
  ghost predicate Before(svc: map<Handle, Service>, b: Act, h: Handle, n: Numbers) {
    && h in svc && Fine(svc[h], n.refs, n.keeps, n.listed, n.deleters) && ActOk(svc, b)
    && n.refs >= One(RefersTo(b, h)) && n.keeps >= One(Keeps(b, h)) && n.listed >= 0 && n.deleters >= One(Deletes(b, h))
  }

  /** The step of a call from `b` to `a` may turn service `h` into `w`. */
  ghost predicate Legal(svc: map<Handle, Service>, b: Act, a: Act, h: Handle, w: Service, n: Numbers, d: int) {
    && h in svc
    && var m := Shifted(n, b, a, h, d);
    && Fine(w, m.refs, m.keeps, m.listed, m.deleters)
    && ActOk(svc[h := w], a)
    && (Soft(svc[h], w) || Keeps(b, h))
    && Grows(svc[h], w)
  }

  lemma ActsKeep(s: State, t: Tid, h: Handle, v: Service, u: Tid)
    requires Inv(s) && t in s.acts && h in s.svc && u in s.acts && u != t
    requires Soft(s.svc[h], v) || Keeps(s.acts[t], h)
    ensures ActOk(s.svc[h := v], s.acts[u])
  {
    assert ActOk(s.svc, s.acts[u]) && FineAt(s, h);
    if Keeps(s.acts[u], h) && Keeps(s.acts[t], h) { CountTwo(s.acts, t, u, KeepRole(h)); }
    ActStable(s.svc, h, v, s.acts[u]);
  }

  lemma NumbersMove(s: State, t: Tid, a: Act, h: Handle, v: Service, global: seq<Handle>)
    requires t in s.acts
    ensures NumbersOf(Moved(s, t, a, h, v, global), h)
         == Shifted(NumbersOf(s, h), s.acts[t], a, h, Listed(global, h) - Listed(s.global, h))
  {
    CountUpdate(s.acts, t, a, RefRole(h));
    CountUpdate(s.acts, t, a, KeepRole(h));
    CountUpdate(s.acts, t, a, DeleteRole(h));
  }

  /** A legal step that leaves the other services alone keeps the invariant. */
  lemma MovedKeeps(s: State, t: Tid, a: Act, h: Handle, v: Service, global: seq<Handle>)
    requires Inv(s) && t in s.acts
    requires forall g <- global :: g in s.svc
    requires forall g <- s.svc :: g != h ==> Untouched(s, t, a, global, g)
    requires Legal(s.svc, s.acts[t], a, h, v, NumbersOf(s, h), Listed(global, h) - Listed(s.global, h))
    ensures Inv(Moved(s, t, a, h, v, global))
  {
    var s' := Moved(s, t, a, h, v, global);
    NumbersMove(s, t, a, h, v, global);
    forall g <- s'.svc ensures FineAt(s', g) {
      if g != h { FineFrame(s, t, a, h, v, global, g); }
    }
    forall u <- s'.acts ensures ActOk(s'.svc, s'.acts[u]) {
      if u != t { ActsKeep(s, t, h, v, u); }
    }
  }

  /** What the invariant says where a call stands. */
  lemma At(s: State, t: Tid, h: Handle)
    requires Inv(s) && t in s.acts && h in s.svc
    ensures Before(s.svc, s.acts[t], h, NumbersOf(s, h))
  {
    assert FineAt(s, h);
    if RefersTo(s.acts[t], h) { CountTwo(s.acts, t, t, RefRole(h)); }
    if Keeps(s.acts[t], h) { CountTwo(s.acts, t, t, KeepRole(h)); }
    if Deletes(s.acts[t], h) { CountTwo(s.acts, t, t, DeleteRole(h)); }
  }

  /** A step that changes neither the global queue nor anything of the other services. */
  lemma QuietKeeps(s: State, t: Tid, a: Act, h: Handle, v: Service)
    requires Inv(s) && t in s.acts && Legal(s.svc, s.acts[t], a, h, v, NumbersOf(s, h), 0)
    requires forall g :: g != h ==> SameRoles(s.acts[t], a, g)
    ensures Inv(Moved(s, t, a, h, v, s.global))
  {
    forall g <- s.svc | g != h ensures Untouched(s, t, a, s.global, g) { assert SameRoles(s.acts[t], a, g); }
    MovedKeeps(s, t, a, h, v, s.global);
  }

  /** A step that appends the queue to the global queue. */
  lemma ListingKeeps(s: State, t: Tid, a: Act, h: Handle, v: Service)
    requires Inv(s) && t in s.acts && Legal(s.svc, s.acts[t], a, h, v, NumbersOf(s, h), 1)
    requires forall g :: g != h ==> SameRoles(s.acts[t], a, g)
    ensures Inv(Moved(s, t, a, h, v, s.global + [h]))
  {
    forall g <- s.svc | g != h ensures Untouched(s, t, a, s.global + [h], g) { assert SameRoles(s.acts[t], a, g); }
    MovedKeeps(s, t, a, h, v, s.global + [h]);
  }

  predicate SameRoles(b: Act, a: Act, g: Handle) {
    RefersTo(a, g) == RefersTo(b, g) && Keeps(a, g) == Keeps(b, g) && Deletes(a, g) == Deletes(b, g)
  }

  // ----- one lemma for each kind of step -----

  /** A step of a call: where it goes, what becomes of the service, and whether the queue gets listed. */
  datatype Plan = Plan(h: Handle, a: Act, w: Service, listing: bool)

  /** The service a call is busy with. */
  function Subject(a: Act): Handle {
    match a
    case Idle => 0
    case Sending(h, _) => h
    case Creating(h) => h
    case Starting(h) => h
    case Publishing(h, _) => h
    case Reporting(h) => h
    case Returned(h) => h
    case Retiring(h) => h
    case Releasing(h, _) => h
    case Deleting(h, _) => h
    case _ => a.q
  }

  ghost predicate Follows(s: State, t: Tid, c: Choice, n: Numbers, p: Plan)
    requires Known(s, t)
  {
    && Step(s, t, c) == Moved(s, t, p.a, p.h, p.w, if p.listing then s.global + [p.h] else s.global)
    && Legal(s.svc, s.acts[t], p.a, p.h, p.w, n, One(p.listing))
    && forall g :: g != p.h ==> SameRoles(s.acts[t], p.a, g)
  }

  ghost predicate Poised(s: State, t: Tid, n: Numbers) {
    Known(s, t) && Before(s.svc, s.acts[t], Subject(s.acts[t]), n)
  }

  lemma SendingLegal(svc: map<Handle, Service>, h: Handle, m: Msg, n: Numbers)
    requires Before(svc, Sending(h, m), h, n)
    ensures Legal(svc, Sending(h, m), Releasing(h, Rest), h, Pushed(svc[h], m), n, if svc[h].inGlobal then 0 else 1)
  {
    var v := svc[h];
    assert Pushed(v, m).pushed == Msgs(v.settled) + v.flight + Pushed(v, m).contents;
  }

  lemma SendingPlan(s: State, t: Tid, c: Choice, n: Numbers) returns (p: Plan)
    requires Poised(s, t, n) && s.acts[t].Sending?
    ensures Follows(s, t, c, n, p) && p.h == Subject(s.acts[t])
  {
    var h := Subject(s.acts[t]);
    var v := s.svc[h];
    SendingLegal(s.svc, h, s.acts[t].m, n);
    p := Plan(h, Releasing(h, Rest), Pushed(v, s.acts[t].m), !v.inGlobal);
  }

  lemma LaunchLegal(svc: map<Handle, Service>, h: Handle, n: Numbers)
    requires h in svc
    ensures Before(svc, Creating(h), h, n) ==>
      && Legal(svc, Creating(h), Releasing(h, Withdraw(h)), h, svc[h], n, 0)
      && Legal(svc, Creating(h), Releasing(h, Launch(h)), h, svc[h], n, 0)
    ensures Before(svc, Starting(h), h, n) ==> Legal(svc, Starting(h), Publishing(h, true), h, svc[h].(init := true), n, 0)
    ensures Before(svc, Publishing(h, true), h, n) ==> Legal(svc, Publishing(h, true), Reporting(h), h, svc[h], n, 1)
    ensures Before(svc, Publishing(h, false), h, n) ==> Legal(svc, Publishing(h, false), Idle, h, svc[h], n, 1)
  {
  }

  lemma ReportLegal(svc: map<Handle, Service>, h: Handle, n: Numbers)
    requires h in svc
    ensures Before(svc, Reporting(h), h, n) ==> Legal(svc, Reporting(h), Returned(h), h, svc[h], n, 0)
    ensures Before(svc, Returned(h), h, n) ==> Legal(svc, Returned(h), Idle, h, svc[h], n, 0)
  {
  }

  lemma RetiringLegal(svc: map<Handle, Service>, h: Handle, n: Numbers)
    requires Before(svc, Retiring(h), h, n)
    ensures Legal(svc, Retiring(h), if svc[h].registered then Releasing(h, Dispose(h)) else Orphaned(h), h, svc[h].(registered := false), n, 0)
  {
  }

  lemma CreatingPlan(s: State, t: Tid, c: Choice, n: Numbers) returns (p: Plan)
    requires Poised(s, t, n) && s.acts[t].Creating?
    ensures Follows(s, t, c, n, p) && p.h == Subject(s.acts[t])
  {
    var h := Subject(s.acts[t]);
    var v := s.svc[h];
    LaunchLegal(s.svc, h, n);
    p := Plan(h, Releasing(h, if c == Stop then Withdraw(h) else Launch(h)), v, false);
  }

  lemma LaunchPlan(s: State, t: Tid, c: Choice, n: Numbers) returns (p: Plan)
    requires Poised(s, t, n) && (s.acts[t].Starting? || s.acts[t].Publishing?)
    ensures Follows(s, t, c, n, p) && p.h == Subject(s.acts[t])
  {
    var h := Subject(s.acts[t]);
    var v := s.svc[h];
    LaunchLegal(s.svc, h, n);
    p := if s.acts[t].Starting? then Plan(h, Publishing(h, true), v.(init := true), false)
         else Plan(h, if s.acts[t].alive then Reporting(h) else Idle, v, true);
  }

  lemma ReportPlan(s: State, t: Tid, c: Choice, n: Numbers) returns (p: Plan)
    requires Poised(s, t, n) && (s.acts[t].Reporting? || s.acts[t].Returned?)
    ensures Follows(s, t, c, n, p) && p.h == Subject(s.acts[t])
  {
    var h := Subject(s.acts[t]);
    var v := s.svc[h];
    ReportLegal(s.svc, h, n);
    p := Plan(h, if s.acts[t].Reporting? then Returned(h) else Idle, v, false);
  }

  lemma RetiringPlan(s: State, t: Tid, c: Choice, n: Numbers) returns (p: Plan)
    requires Poised(s, t, n) && s.acts[t].Retiring?
    ensures Follows(s, t, c, n, p) && p.h == Subject(s.acts[t])
  {
    var h := Subject(s.acts[t]);
    var v := s.svc[h];
    RetiringLegal(s.svc, h, n);
    p := Plan(h, if v.registered then Releasing(h, Dispose(h)) else Orphaned(h), v.(registered := false), false);
  }

  lemma HoldingLegal(svc: map<Handle, Service>, q: Handle, n: Numbers)
    requires q in svc
    ensures Before(svc, Holding(q), q, n) && svc[q].registered ==>
      Legal(svc, Holding(q), Serving(q), q, svc[q].(ref := svc[q].ref + 1), n, 0)
    ensures Before(svc, Holding(q), q, n) && !svc[q].registered ==> Legal(svc, Holding(q), Orphaned(q), q, svc[q], n, 0)
    ensures Before(svc, Orphaned(q), q, n) && svc[q].release ==> Legal(svc, Orphaned(q), Dropping(q), q, svc[q], n, 0)
    ensures Before(svc, Orphaned(q), q, n) ==> Legal(svc, Orphaned(q), Idle, q, svc[q], n, 1)
  {
  }

  lemma HoldingPlan(s: State, t: Tid, c: Choice, n: Numbers) returns (p: Plan)
    requires Poised(s, t, n) && s.acts[t].Holding?
    ensures Follows(s, t, c, n, p) && p.h == Subject(s.acts[t])
  {
    var h := Subject(s.acts[t]);
    var v := s.svc[h];
    HoldingLegal(s.svc, h, n);
    p := if v.registered then Plan(h, Serving(h), v.(ref := v.ref + 1), false) else Plan(h, Orphaned(h), v, false);
  }

  lemma OrphanedPlan(s: State, t: Tid, c: Choice, n: Numbers) returns (p: Plan)
    requires Poised(s, t, n) && s.acts[t].Orphaned?
    ensures Follows(s, t, c, n, p) && p.h == Subject(s.acts[t])
  {
    var h := Subject(s.acts[t]);
    var v := s.svc[h];
    HoldingLegal(s.svc, h, n);
    p := if v.release then Plan(h, Dropping(h), v, false) else Plan(h, Idle, v, true);
  }

  lemma PoppedHistory(v: Service)
    requires v.contents != [] && v.flight == [] && v.pushed == Msgs(v.settled) + v.flight + v.contents
    ensures Popped(v).flight == [v.contents[0]]
    ensures Popped(v).pushed == Msgs(Popped(v).settled) + Popped(v).flight + Popped(v).contents
  {
    assert v.contents == [v.contents[0]] + v.contents[1..];
  }

  lemma SettledHistory(v: Service, m: Msg, f: Fate)
    requires v.flight == [m] && v.pushed == Msgs(v.settled) + v.flight + v.contents
    ensures var w := Settled(v, m, f); w.pushed == Msgs(w.settled) + w.flight + w.contents
  {
    assert Msgs(v.settled + [(m, f)]) == Msgs(v.settled) + [m];
  }

  lemma PoppingLegal(svc: map<Handle, Service>, q: Handle, n: Numbers)
    requires q in svc && svc[q].contents != []
    ensures Before(svc, Dropping(q), q, n) ==> Legal(svc, Dropping(q), DroppingMsg(q, svc[q].contents[0]), q, Popped(svc[q]), n, 0)
    ensures Before(svc, Serving(q), q, n) ==> Legal(svc, Serving(q), Calling(q, svc[q].contents[0]), q, Popped(svc[q]), n, 0)
  {
    var v := svc[q];
    if v.flight == [] && v.pushed == Msgs(v.settled) + v.flight + v.contents { PoppedHistory(v); }
  }

  lemma EmptyLegal(svc: map<Handle, Service>, q: Handle, n: Numbers)
    requires q in svc && svc[q].contents == []
    ensures Before(svc, Dropping(q), q, n) ==>
      Legal(svc, Dropping(q), Idle, q, svc[q].(inGlobal := false, frees := svc[q].frees + 1), n, 0)
    ensures Before(svc, Serving(q), q, n) ==> Legal(svc, Serving(q), Releasing(q, Rest), q, svc[q].(inGlobal := false), n, 0)
  {
  }

  lemma PoppingPlan(s: State, t: Tid, c: Choice, n: Numbers) returns (p: Plan)
    requires Poised(s, t, n) && (s.acts[t].Dropping? || s.acts[t].Serving?) && s.svc[s.acts[t].q].contents != []
    ensures Follows(s, t, c, n, p) && p.h == Subject(s.acts[t])
  {
    var h := Subject(s.acts[t]);
    var v := s.svc[h];
    PoppingLegal(s.svc, h, n);
    p := Plan(h, if s.acts[t].Serving? then Calling(h, v.contents[0]) else DroppingMsg(h, v.contents[0]), Popped(v), false);
  }

  lemma EmptyPlan(s: State, t: Tid, c: Choice, n: Numbers) returns (p: Plan)
    requires Poised(s, t, n) && (s.acts[t].Dropping? || s.acts[t].Serving?) && s.svc[s.acts[t].q].contents == []
    ensures Follows(s, t, c, n, p) && p.h == Subject(s.acts[t])
  {
    var h := Subject(s.acts[t]);
    var v := s.svc[h];
    EmptyLegal(s.svc, h, n);
    p := if s.acts[t].Serving? then Plan(h, Releasing(h, Rest), v.(inGlobal := false), false)
         else Plan(h, Idle, v.(inGlobal := false, frees := v.frees + 1), false);
  }

  lemma SettlingLegal(svc: map<Handle, Service>, q: Handle, m: Msg, f: Fate, n: Numbers)
    requires q in svc
    ensures Before(svc, DroppingMsg(q, m), q, n) ==> Legal(svc, DroppingMsg(q, m), Dropping(q), q, Settled(svc[q], m, f), n, 0)
    ensures Before(svc, Calling(q, m), q, n) ==> Legal(svc, Calling(q, m), Serving(q), q, Settled(svc[q], m, f), n, 0)
    ensures Before(svc, Calling(q, m), q, n) ==> Legal(svc, Calling(q, m), Served(q), q, Settled(svc[q], m, f), n, 0)
  {
    var v := svc[q];
    if v.flight == [m] && v.pushed == Msgs(v.settled) + v.flight + v.contents { SettledHistory(v, m, f); }
  }

  lemma SettlingPlan(s: State, t: Tid, c: Choice, n: Numbers) returns (p: Plan)
    requires Poised(s, t, n) && (s.acts[t].DroppingMsg? || s.acts[t].Calling?)
    ensures Follows(s, t, c, n, p) && p.h == Subject(s.acts[t])
  {
    var h := Subject(s.acts[t]);
    var v := s.svc[h];
    var f := if s.acts[t].DroppingMsg? then Dropped else if c.Discard? then Discarded else Dispatched;
    SettlingLegal(s.svc, h, s.acts[t].m, f, n);
    var a := if s.acts[t].DroppingMsg? then Dropping(h) else if c == Go || c == Discard(true) then Serving(h) else Served(h);
    p := Plan(h, a, Settled(v, s.acts[t].m, f), false);
  }

  lemma ServedLegal(svc: map<Handle, Service>, q: Handle, other: Handle, n: Numbers)
    requires q in svc
    ensures Before(svc, Served(q), q, n) ==> Legal(svc, Served(q), Releasing(q, Hold(q)), q, svc[q], n, 0)
    ensures Before(svc, Served(q), q, n) && other != q && other in svc && Ready(svc[other]) ==>
      Legal(svc, Served(q), Swapping(q, other), q, svc[q], n, 0)
    ensures Before(svc, Swapping(q, other), q, n) ==> Legal(svc, Swapping(q, other), Releasing(q, Hold(other)), q, svc[q], n, 1)
  {
    assert svc[q := svc[q]] == svc;
  }

  /** A queue at the head of the list is in nobody's hands, and ready to be taken up. */
  lemma HeadReady(s: State)
    requires Inv(s) && s.global != []
    ensures s.global[0] in s.svc && Ready(s.svc[s.global[0]]) && Count(s.acts, KeepRole(s.global[0])) == 0
  {
    var h := s.global[0];
    assert h in s.global && FineAt(s, h);
  }

  lemma HeadOff(g: seq<Handle>, h: Handle)
    requires g != []
    ensures Listed(g, h) == Listed(g[1..], h) + One(h == g[0])
  {
    assert g == [g[0]] + g[1..];
  }

  lemma ServedPlan(s: State, t: Tid, c: Choice, n: Numbers) returns (p: Plan)
    requires Poised(s, t, n) && ((s.acts[t].Served? && s.global == []) || s.acts[t].Swapping?)
    ensures Follows(s, t, c, n, p) && p.h == Subject(s.acts[t])
  {
    var h := Subject(s.acts[t]);
    var v := s.svc[h];
    var other := if s.acts[t].Swapping? then s.acts[t].other else h;
    ServedLegal(s.svc, h, other, n);
    p := Plan(h, Releasing(h, Hold(other)), v, s.acts[t].Swapping?);
  }

  lemma SwapKeeps(s: State, t: Tid, q: Handle)
    requires Inv(s) && t in s.acts && s.acts[t] == Served(q) && s.global != [] && q in s.svc
    ensures Inv(Moved(s, t, Swapping(q, s.global[0]), q, s.svc[q], s.global[1..]))
  {
    hide Fine, FineAt, ActOk;
    At(s, t, q);
    HeadReady(s);
    HeadOff(s.global, q);
    ServedLegal(s.svc, q, s.global[0], NumbersOf(s, q));
    forall g <- s.svc | g != q ensures Untouched(s, t, Swapping(q, s.global[0]), s.global[1..], g) { HeadOff(s.global, g); }
    MovedKeeps(s, t, Swapping(q, s.global[0]), q, s.svc[q], s.global[1..]);
  }

  lemma ReleasingLegal(svc: map<Handle, Service>, h: Handle, next: After, n: Numbers)
    requires Before(svc, Releasing(h, next), h, n)
    ensures var v := svc[h];
      Legal(svc, Releasing(h, next), if v.ref - 1 == 0 then Deleting(h, next) else Resume(next, true), h, v.(ref := v.ref - 1), n, 0)
  {
    var v := svc[h];
    var w := v.(ref := v.ref - 1);
    assert NextOk(svc[h := w], next);
  }

  lemma DeletingLegal(svc: map<Handle, Service>, h: Handle, next: After, n: Numbers)
    requires Before(svc, Deleting(h, next), h, n)
    ensures var v := svc[h];
      Legal(svc, Deleting(h, next), Resume(next, false), h, v.(release := true, deletions := v.deletions + 1), n, if v.inGlobal then 0 else 1)
  {
    var v := svc[h];
    var w := v.(release := true, deletions := v.deletions + 1);
    assert NextOk(svc[h := w], next);
  }

  lemma ResumeRoles(h: Handle, next: After)
    ensures forall g :: g != h ==> SameRoles(Releasing(h, next), Resume(next, true), g)
    ensures forall g :: g != h ==> SameRoles(Releasing(h, next), Deleting(h, next), g)
    ensures forall g :: g != h ==> SameRoles(Deleting(h, next), Resume(next, false), g)
  {
  }

  lemma ReleasingPlan(s: State, t: Tid, c: Choice, n: Numbers) returns (p: Plan)
    requires Poised(s, t, n) && s.acts[t].Releasing?
    ensures Follows(s, t, c, n, p) && p.h == Subject(s.acts[t])
  {
    var h := Subject(s.acts[t]);
    var v := s.svc[h];
    var next := s.acts[t].next;
    ReleasingLegal(s.svc, h, next, n);
    ResumeRoles(h, next);
    p := Plan(h, if v.ref - 1 == 0 then Deleting(h, next) else Resume(next, true), v.(ref := v.ref - 1), false);
  }

  lemma DeletingPlan(s: State, t: Tid, c: Choice, n: Numbers) returns (p: Plan)
    requires Poised(s, t, n) && s.acts[t].Deleting?
    ensures Follows(s, t, c, n, p) && p.h == Subject(s.acts[t])
  {
    var h := Subject(s.acts[t]);
    var v := s.svc[h];
    var next := s.acts[t].next;
    DeletingLegal(s.svc, h, next, n);
    ResumeRoles(h, next);
    p := Plan(h, Resume(next, false), v.(release := true, deletions := v.deletions + 1), !v.inGlobal);
  }

  lemma NobodyAt(s: State, h: Handle, r: Role)
    requires Inv(s) && h !in s.svc && r.h == h
    ensures Count(s.acts, r) == 0
  {
    forall t | t in s.acts ensures !Plays(s.acts[t], r) { assert ActOk(s.svc, s.acts[t]); }
    assert Players(s.acts, r) == {};
  }

  lemma NewFine(s: State, t: Tid, h: Handle)
    requires Inv(s) && t in s.acts && s.acts[t] == Idle && h !in s.svc
    ensures FineAt(Moved(s, t, Creating(h), h, NewService, s.global), h)
  {
    NobodyAt(s, h, RefRole(h));
    NobodyAt(s, h, KeepRole(h));
    NobodyAt(s, h, DeleteRole(h));
    NumbersMove(s, t, Creating(h), h, NewService, s.global);
  }

  lemma NewActs(s: State, h: Handle, u: Tid)
    requires Inv(s) && h !in s.svc && u in s.acts
    ensures ActOk(s.svc[h := NewService], s.acts[u])
  {
    assert ActOk(s.svc, s.acts[u]);
    ActStable(s.svc, h, NewService, s.acts[u]);
  }

  lemma NewKeeps(s: State, t: Tid, h: Handle)
    requires Inv(s) && t in s.acts && s.acts[t] == Idle && h !in s.svc
    ensures Inv(Moved(s, t, Creating(h), h, NewService, s.global))
  {
    var s' := Moved(s, t, Creating(h), h, NewService, s.global);
    NewFine(s, t, h);
    forall g <- s'.svc ensures FineAt(s', g) {
      if g != h { FineFrame(s, t, Creating(h), h, NewService, s.global, g); }
    }
    forall u <- s'.acts ensures ActOk(s'.svc, s'.acts[u]) {
      if u != t { NewActs(s, h, u); }
    }
  }

  lemma IdleLegal(svc: map<Handle, Service>, h: Handle, m: Msg, n: Numbers)
    requires Before(svc, Idle, h, n)
    ensures svc[h].registered ==> Legal(svc, Idle, Sending(h, m), h, svc[h].(ref := svc[h].ref + 1), n, 0)
    ensures svc[h].registered ==> Legal(svc, Idle, Releasing(h, Rest), h, svc[h].(ref := svc[h].ref + 1), n, 0)
    ensures svc[h].registered ==> Legal(svc, Idle, Releasing(h, Rest), h, svc[h].(registered := false), n, 0)
    ensures Ready(svc[h]) ==> Legal(svc, Idle, Holding(h), h, svc[h], n, -1)
  {
  }

  lemma TakeKeeps(s: State, t: Tid)
    requires Inv(s) && t in s.acts && s.acts[t] == Idle && s.global != []
    ensures s.global[0] in s.svc
    ensures Inv(Moved(s, t, Holding(s.global[0]), s.global[0], s.svc[s.global[0]], s.global[1..]))
  {
    var q := s.global[0];
    HeadReady(s);
    HeadOff(s.global, q);
    At(s, t, q);
    IdleLegal(s.svc, q, 0, NumbersOf(s, q));
    forall g <- s.svc | g != q ensures Untouched(s, t, Holding(q), s.global[1..], g) { HeadOff(s.global, g); }
    MovedKeeps(s, t, Holding(q), q, s.svc[q], s.global[1..]);
  }

  /** An idle call that sends, kills or looks up a service. */
  lemma IdlePlan(s: State, t: Tid, c: Choice, n: Numbers) returns (p: Plan)
    requires Known(s, t) && s.acts[t].Idle? && (c.Send? || c.Touch? || c.Kill?)
    requires Before(s.svc, Idle, c.h, n) && s.svc[c.h].registered
    ensures Follows(s, t, c, n, p) && p.h == c.h
  {
    var v := s.svc[c.h];
    IdleLegal(s.svc, c.h, if c.Send? then c.m else 0, n);
    p := if c.Send? then Plan(c.h, Sending(c.h, c.m), v.(ref := v.ref + 1), false)
         else if c.Touch? then Plan(c.h, Releasing(c.h, Rest), v.(ref := v.ref + 1), false)
         else Plan(c.h, Releasing(c.h, Rest), v.(registered := false), false);
  }

  /** An idle call that does nothing, launches a service or takes a queue. */
  lemma IdleStep(s: State, t: Tid, c: Choice)
    requires Known(s, t) && s.acts[t].Idle?
    ensures (c.Send? || c.Touch? || c.Kill?) && (c.h !in s.svc || !s.svc[c.h].registered) ==> Step(s, t, c) == s
    ensures c.New? ==> Step(s, t, c) == if c.h in s.svc then s else Moved(s, t, Creating(c.h), c.h, NewService, s.global)
    ensures c.Take? && s.global != [] && s.global[0] in s.svc ==>
      Step(s, t, c) == Moved(s, t, Holding(s.global[0]), s.global[0], s.svc[s.global[0]], s.global[1..])
    ensures c.Take? && s.global == [] ==> Step(s, t, c) == s
    ensures c.Go? || c.Stop? || c.Discard? ==> Step(s, t, c) == s
  {
    if c.Take? && s.global != [] && s.global[0] in s.svc {
      assert s.svc == s.svc[s.global[0] := s.svc[s.global[0]]];
    }
  }

  /** A call that is not idle, and does not swap queues, has a plan. */
  lemma Planned(s: State, t: Tid, c: Choice, n: Numbers) returns (p: Plan)
    requires Poised(s, t, n) && !s.acts[t].Idle? && !(s.acts[t].Served? && s.global != [])
    ensures Follows(s, t, c, n, p) && p.h == Subject(s.acts[t])
  {
    match s.acts[t]
    case Sending(_, _) => p := SendingPlan(s, t, c, n);
    case Creating(_) => p := CreatingPlan(s, t, c, n);
    case Starting(_) => p := LaunchPlan(s, t, c, n);
    case Publishing(_, _) => p := LaunchPlan(s, t, c, n);
    case Reporting(_) => p := ReportPlan(s, t, c, n);
    case Returned(_) => p := ReportPlan(s, t, c, n);
    case Retiring(_) => p := RetiringPlan(s, t, c, n);
    case Holding(_) => p := HoldingPlan(s, t, c, n);
    case Orphaned(_) => p := OrphanedPlan(s, t, c, n);
    case Dropping(q) => if s.svc[q].contents != [] { p := PoppingPlan(s, t, c, n); } else { p := EmptyPlan(s, t, c, n); }
    case DroppingMsg(_, _) => p := SettlingPlan(s, t, c, n);
    case Serving(q) => if s.svc[q].contents != [] { p := PoppingPlan(s, t, c, n); } else { p := EmptyPlan(s, t, c, n); }
    case Calling(_, _) => p := SettlingPlan(s, t, c, n);
    case Served(_) => p := ServedPlan(s, t, c, n);
    case Swapping(_, _) => p := ServedPlan(s, t, c, n);
    case Releasing(_, _) => p := ReleasingPlan(s, t, c, n);
    case Deleting(_, _) => p := DeletingPlan(s, t, c, n);
  }

  lemma SubjectKnown(s: State, t: Tid)
    requires Inv(s) && t in s.acts && !s.acts[t].Idle?
    ensures Subject(s.acts[t]) in s.svc
  {
    assert ActOk(s.svc, s.acts[t]);
  }

  lemma PlanKeeps(s: State, t: Tid, c: Choice, p: Plan)
    requires Inv(s) && Known(s, t) && Follows(s, t, c, NumbersOf(s, p.h), p)
    ensures Inv(Step(s, t, c))
  {
    if p.listing { ListingKeeps(s, t, p.a, p.h, p.w); } else { QuietKeeps(s, t, p.a, p.h, p.w); }
  }

  lemma MovedEvolves(s: State, t: Tid, a: Act, h: Handle, v: Service, global: seq<Handle>)
    requires h in s.svc ==> Grows(s.svc[h], v)
    ensures Evolves(s, Moved(s, t, a, h, v, global))
  {
  }

  /** Every step of every call keeps the invariant. */
  lemma StepKeeps(s: State, t: Tid, c: Choice)
    requires Inv(s) && t in s.acts
    ensures Known(s, t) && Inv(Step(s, t, c))
  {
    InvKnown(s, t);
    if !s.acts[t].Idle? {
      BusyKeeps(s, t, c);
    } else if (c.Send? || c.Touch? || c.Kill?) && c.h in s.svc && s.svc[c.h].registered {
      At(s, t, c.h);
      var p := IdlePlan(s, t, c, NumbersOf(s, c.h));
      PlanKeeps(s, t, c, p);
    } else {
      IdleStep(s, t, c);
      if c.New? && c.h !in s.svc { NewKeeps(s, t, c.h); }
      if c.Take? && s.global != [] { TakeKeeps(s, t); }
    }
  }

  lemma BusyKeeps(s: State, t: Tid, c: Choice)
    requires Inv(s) && Known(s, t) && !s.acts[t].Idle?
    ensures Inv(Step(s, t, c))
  {
    SubjectKnown(s, t);
    var h := Subject(s.acts[t]);
    if s.acts[t].Served? && s.global != [] {
      SwapKeeps(s, t, h);
    } else {
      At(s, t, h);
      var p := Planned(s, t, c, NumbersOf(s, h));
      PlanKeeps(s, t, c, p);
    }
  }

  /** Every step lets the history of the services grow, and nothing else. */
  lemma StepEvolves(s: State, t: Tid, c: Choice)
    requires Inv(s) && Known(s, t)
    ensures Evolves(s, Step(s, t, c))
  {
    if !s.acts[t].Idle? {
      SubjectKnown(s, t);
      var h := Subject(s.acts[t]);
      if s.acts[t].Served? && s.global != [] {
        MovedEvolves(s, t, Swapping(h, s.global[0]), h, s.svc[h], s.global[1..]);
      } else {
        At(s, t, h);
        var p := Planned(s, t, c, NumbersOf(s, h));
        MovedEvolves(s, t, p.a, p.h, p.w, if p.listing then s.global + [p.h] else s.global);
      }
    } else if (c.Send? || c.Touch? || c.Kill?) && c.h in s.svc && s.svc[c.h].registered {
      At(s, t, c.h);
      var p := IdlePlan(s, t, c, NumbersOf(s, c.h));
      MovedEvolves(s, t, p.a, p.h, p.w, if p.listing then s.global + [p.h] else s.global);
    } else {
      IdleStep(s, t, c);
      if c.New? && c.h !in s.svc { MovedEvolves(s, t, Creating(c.h), c.h, NewService, s.global); }
      if c.Take? && s.global != [] { MovedEvolves(s, t, Holding(s.global[0]), s.global[0], s.svc[s.global[0]], s.global[1..]); }
    }
  }
}
