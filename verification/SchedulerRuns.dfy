/**
 What the scheduler promises in every run.
 */
module SchedulerRuns {

  import opened Scheduler
  import opened SchedulerInvariant

  lemma NextKeeps(s: State, s': State)
    requires Inv(s) && Next(s, s')
    ensures Inv(s') && Evolves(s, s')
  {
    var t, c :| Known(s, t) && s' == Step(s, t, c);
    StepKeeps(s, t, c);
    StepEvolves(s, t, c);
  }

  lemma {:induction false} RunInv(r: seq<State>, i: nat)
    requires Run(r) && i < |r|
    ensures Inv(r[i])
  {
    if i == 0 {
      StartInv(r[0]);
    } else {
      RunInv(r, i - 1);
      assert StepAt(r, i - 1);
      NextKeeps(r[i - 1], r[i]);
    }
  }

  // ----- ownership -----

  /**
   A queue is in one place at most: in the hands of one call, or once in the global queue. With messages in it, it is
   in one.
   */
  lemma OnePlace(r: seq<State>, i: nat, h: Handle)
    requires Run(r) && i < |r| && h in r[i].svc
    ensures forall t, u :: t in r[i].acts && u in r[i].acts && t != u ==> !Keeps(r[i].acts[t], h) || !Keeps(r[i].acts[u], h)
    ensures forall t :: t in r[i].acts && Keeps(r[i].acts[t], h) ==> h !in r[i].global
    ensures multiset(r[i].global)[h] <= 1
    ensures r[i].svc[h].contents != [] ==> h in r[i].global || exists t :: t in r[i].acts && Keeps(r[i].acts[t], h)
  {
    var s := r[i];
    RunInv(r, i);
    assert FineAt(s, h);
    forall t, u | t in s.acts && u in s.acts && t != u ensures !Keeps(s.acts[t], h) || !Keeps(s.acts[u], h) {
      if Keeps(s.acts[t], h) && Keeps(s.acts[u], h) { CountTwo(s.acts, t, u, KeepRole(h)); }
    }
    forall t | t in s.acts && Keeps(s.acts[t], h) ensures h !in s.global {
      CountTwo(s.acts, t, t, KeepRole(h));
    }
    if s.svc[h].contents != [] && h !in s.global {
      assert Players(s.acts, KeepRole(h)) != {};
      var t :| t in Players(s.acts, KeepRole(h));
      assert Keeps(s.acts[t], h);
    }
  }

  /** A callback never runs twice at once, never beside init and never before init is over. */
  lemma CallbackExclusive(r: seq<State>, i: nat, t: Tid)
    requires Run(r) && i < |r| && t in r[i].acts && r[i].acts[t].Calling?
    ensures r[i].acts[t].q in r[i].svc && r[i].svc[r[i].acts[t].q].init
    ensures forall u, m :: u in r[i].acts && u != t ==> r[i].acts[u] != Calling(r[i].acts[t].q, m)
    ensures forall u :: u in r[i].acts ==> r[i].acts[u] != Creating(r[i].acts[t].q)
  {
    hide Fine, FineAt, Run;
    var s := r[i];
    RunInv(r, i);
    assert ActOk(s.svc, s.acts[t]);
    var q := s.acts[t].q;
    OnePlace(r, i, q);
    forall u | u in s.acts && u != t ensures !Keeps(s.acts[u], q) {}
  }

  // ----- messages -----

  lemma GrowsOn(u: Service, v: Service, w: Service)
    requires Grows(u, v) && Grows(v, w)
    ensures Grows(u, w)
  {
  }

  lemma RunNextGrows(r: seq<State>, j: nat, h: Handle)
    requires Run(r) && 0 < j < |r| && h in r[j - 1].svc
    ensures h in r[j].svc && Grows(r[j - 1].svc[h], r[j].svc[h])
  {
    RunInv(r, j - 1);
    assert StepAt(r, j - 1);
    NextKeeps(r[j - 1], r[j]);
  }

  lemma {:induction false} RunGrows(r: seq<State>, i: nat, j: nat, h: Handle)
    requires Run(r) && i <= j < |r| && h in r[i].svc
    ensures h in r[j].svc && Grows(r[i].svc[h], r[j].svc[h])
  {
    if i < j {
      RunGrows(r, i, j - 1, h);
      RunNextGrows(r, j, h);
      GrowsOn(r[i].svc[h], r[j - 1].svc[h], r[j].svc[h]);
    }
  }

  /**
   Messages leave a queue in the order of their arrival, each once; what has left stays settled, and once the queue is
   freed all of them have left it and no more arrive.
   */
  lemma Conservation(r: seq<State>, i: nat, j: nat, h: Handle)
    requires Run(r) && i <= j < |r| && h in r[i].svc
    ensures h in r[j].svc
    ensures r[j].svc[h].pushed == Msgs(r[j].svc[h].settled) + r[j].svc[h].flight + r[j].svc[h].contents
    ensures |r[j].svc[h].flight| <= 1
    ensures IsPrefix(r[i].svc[h].pushed, r[j].svc[h].pushed) && IsPrefix(r[i].svc[h].settled, r[j].svc[h].settled)
    ensures r[i].svc[h].frees > 0 ==> Msgs(r[j].svc[h].settled) == r[j].svc[h].pushed == r[i].svc[h].pushed
  {
    RunGrows(r, i, j, h);
    RunInv(r, i);
    RunInv(r, j);
    assert FineAt(r[i], h) && FineAt(r[j], h);
    FlightOne(r[j], h);
    if r[i].svc[h].frees > 0 {
      assert r[j].svc[h].frees > 0;
      assert r[j].svc[h].flight == [] && r[j].svc[h].contents == [];
    }
  }

  /** At most one message is between the queue and its fate. */
  lemma FlightOne(s: State, h: Handle)
    requires Inv(s) && h in s.svc
    ensures |s.svc[h].flight| <= 1
  {
    assert FineAt(s, h);
    if t :| t in Players(s.acts, KeepRole(h)) {
      assert ActOk(s.svc, s.acts[t]);
    } else {
      assert Players(s.acts, KeepRole(h)) == {};
    }
  }

  // ----- lifetime -----

  /**
   A context is deleted once, by one call, when the last reference is gone; its queue is freed once, by the one call
   that has it in hand.
   */
  lemma Lifetime(r: seq<State>, i: nat, h: Handle)
    requires Run(r) && i < |r| && h in r[i].svc
    ensures var v := r[i].svc[h];
      && v.deletions + Count(r[i].acts, DeleteRole(h)) == (if v.ref == 0 then 1 else 0)
      && (v.ref == 0 <==> !v.registered && forall t :: t in r[i].acts ==> !RefersTo(r[i].acts[t], h))
    ensures r[i].svc[h].deletions == 1 ==>
      r[i].svc[h].frees + Count(r[i].acts, KeepRole(h)) + multiset(r[i].global)[h] == 1
    ensures r[i].svc[h].frees > 0 ==> r[i].svc[h].deletions == 1
  {
    var s := r[i];
    RunInv(r, i);
    assert FineAt(s, h);
    forall t | t in s.acts && RefersTo(s.acts[t], h) ensures Count(s.acts, RefRole(h)) > 0 {
      CountTwo(s.acts, t, t, RefRole(h));
    }
    if forall t :: t in s.acts ==> !RefersTo(s.acts[t], h) {
      assert Players(s.acts, RefRole(h)) == {};
    }
  }

  /**
   No call that refers to a context, deletes it or has its queue in hand meets one that is gone. The accesses of a
   launch after it has dropped its reference are not among these: `PeekIsSafe` says when they are safe.
   */
  lemma NoUseAfterFree(r: seq<State>, i: nat, t: Tid, h: Handle)
    requires Run(r) && i < |r| && t in r[i].acts && h in r[i].svc
    ensures RefersTo(r[i].acts[t], h) || Deletes(r[i].acts[t], h) ==> r[i].svc[h].deletions == 0
    ensures Keeps(r[i].acts[t], h) || h in r[i].global ==> r[i].svc[h].frees == 0
  {
    RunInv(r, i);
    At(r[i], t, h);
  }

  /**
   A launch touches its context three times without a reference: it stores `ctx->init`, it reads the handle for the
   log line, and its caller reads the handle. Each of these meets a living context exactly where the handle is still
   registered or someone else refers to the context or is about to delete it.
   */
  lemma PeekIsSafe(r: seq<State>, i: nat, t: Tid, h: Handle)
    requires Run(r) && i < |r| && t in r[i].acts && Peeks(r[i].acts[t], h)
    ensures h in r[i].svc
    ensures r[i].svc[h].deletions == 0 <==>
      r[i].svc[h].registered || exists u :: u in r[i].acts && u != t && (RefersTo(r[i].acts[u], h) || Deletes(r[i].acts[u], h))
  {
    var s := r[i];
    RunInv(r, i);
    assert ActOk(s.svc, s.acts[t]);
    Lifetime(r, i, h);
    if u :| u in s.acts && (RefersTo(s.acts[u], h) || Deletes(s.acts[u], h)) {
      NoUseAfterFree(r, i, u, h);
    } else {
      assert Players(s.acts, DeleteRole(h)) == {};
    }
  }

  // ----- launches that are overtaken -----

  /** A launch by call 0 after `l` of its steps. */
  function Launcher(l: nat): Act {
    if l == 0 then Idle
    else if l == 1 then Creating(7)
    else if l == 2 then Releasing(7, Launch(7))
    else if l == 3 then Starting(7)
    else if l == 4 then Publishing(7, true)
    else if l == 5 then Reporting(7)
    else Returned(7)
  }

  /** A kill of the service by call 1 after `j` of its steps. */
  function Killer(j: nat): Act {
    if j == 1 then Releasing(7, Rest) else if j == 2 then Deleting(7, Rest) else Idle
  }

  function Victim(l: nat, j: nat): Service {
    NewService.(registered := j == 0, init := l >= 4, ref := (if l < 3 then 2 else 1) - (if j >= 2 then 1 else 0),
                release := j >= 3, deletions := if j >= 3 then 1 else 0)
  }

  function Race(l: nat, j: nat): State {
    State(if l == 0 then map[] else map[7 := Victim(l, j)], if l >= 5 then [7] else [], map[0 := Launcher(l), 1 := Killer(j)])
  }

  lemma RaceLaunch(l: nat)
    requires l < 6
    ensures Next(Race(l, 0), Race(l + 1, 0))
  {
    var s, s' := Race(l, 0), Race(l + 1, 0);
    assert Known(s, 0);
    assert s' == Step(s, 0, if l == 0 then New(7) else Go);
  }

  lemma RaceKill(l: nat, j: nat)
    requires 3 <= l <= 6 && j < 3
    ensures Next(Race(l, j), Race(l, j + 1))
  {
    var s, s' := Race(l, j), Race(l, j + 1);
    assert Known(s, 1);
    assert s' == Step(s, 1, if j == 0 then Kill(7) else Go);
  }

  /**
   For each of the three accesses a run that comes to it with the context deleted: the kill overtakes the launch after
   3 steps (the store), 5 steps (the log line) or 6 steps (the caller).
   */
  lemma PeekAfterDelete(l: nat) returns (r: seq<State>)
    requires l == 3 || l == 5 || l == 6
    ensures Run(r)
    ensures var s := r[|r| - 1];
      && 0 in s.acts && s.acts[0] == Launcher(l) && Peeks(s.acts[0], 7) && 7 in s.svc && s.svc[7].deletions == 1
  {
    r := seq(l + 4, k requires 0 <= k < l + 4 => if k <= l then Race(k, 0) else Race(l, k - l));
    forall i: nat | i + 1 < |r| ensures StepAt(r, i) {
      if i < l { RaceLaunch(i); } else { RaceKill(l, i - l); }
    }
    assert r[|r| - 1] == Race(l, 3) && r[0] == Race(0, 0);
  }
}
