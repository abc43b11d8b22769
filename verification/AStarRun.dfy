/**
 The search of `pathfinding.c` as it runs: one array of nodes, and one array of indices that holds the open set
 from its low end and the closed set from its high end.
 */
module AStarRun {

  import opened AStarGrid
  import opened AStarSearch
  import opened AStarRoom

  /** `struct context` with its `struct path` */
  class Context {
    const pr: Problem
    const slots: array<int>
    const nodes: array<Node>
    var open: nat
    var closed: nat
    var n: nat

    constructor (pr: Problem, depth: nat)
      requires pr.Valid() && depth >= 1
      ensures this.pr == pr && nodes.Length == slots.Length == depth && fresh(nodes) && fresh(slots)
      ensures open == closed == n == 0 && Sized()
    {
      this.pr := pr;
      slots := new int[depth](_ => 0);
      nodes := new Node[depth](_ => Node(pr.start, -1, 0, 0));
      open, closed, n := 0, 0, 0;
    }

    /** The two sets do not overlap in the shared array. */
    ghost predicate Sized()
      reads this
    {
      pr.Valid() && n <= nodes.Length == slots.Length && open + closed <= n
    }

    ghost function Nodes(): seq<Node>
      requires Sized()
      reads this, nodes
    {
      nodes[..n]
    }

    ghost function Open(): seq<int>
      requires Sized()
      reads this, slots
    {
      slots[..open]
    }

    ghost function Closed(): seq<int>
      requires Sized()
      reads this, slots
    {
      slots[slots.Length - closed..]
    }

    ghost predicate Valid()
      reads this, slots, nodes
    {
      Sized() && Good(pr, nodes.Length, Now())
    }

    ghost function Now(): State
      requires Sized()
      reads this, slots, nodes
    {
      State(Nodes(), Open(), Closed(), -1)
    }

    /** `add_open` */
    method AddOpen(c: Cell, camefrom: int, gscore: int) returns (ok: bool)
      requires Sized() && open + closed == n
      modifies this`open, this`n, slots, nodes
      ensures Sized() && ok == (old(n) < nodes.Length)
      ensures !ok ==> Nodes() == old(Nodes()) && Open() == old(Open()) && Closed() == old(Closed())
      ensures ok ==> Nodes() == old(Nodes()) + [Node(c, camefrom, gscore, Fscore(pr, c, gscore))]
      ensures ok ==> Open() == old(Open()) + [old(n)] && Closed() == old(Closed())
    {
      if n >= nodes.Length { return false; }
      slots[open] := n;
      open := open + 1;
      nodes[n] := Node(c, camefrom, gscore, gscore + Distance(c, pr.end));
      n := n + 1;
      return true;
    }

    /** `lowest_fscore`: takes the first of the lowest scores out of the open set. */
    method LowestFscore() returns (current: int, ghost at: nat)
      requires Sized() && open > 0 && InRange(n, Open())
      modifies this`open, slots
      ensures Sized() && at < |old(Open())| && current == old(Open())[at] && 0 <= current < n
      ensures Lowest(Nodes(), old(Open()), at)
      ensures forall j :: 0 <= j < at ==> nodes[current].fscore < nodes[old(Open())[j]].fscore
      ensures Open() == Removed(old(Open()), at) && Closed() == old(Closed())
    {
      ghost var was := Open();
      assert forall j :: 0 <= j < open ==> was[j] == slots[j];
      var idx, i := 0, 1;
      current := slots[0];
      while i < open
        invariant 0 <= idx < i <= open && current == slots[idx] && 0 <= current < n
        invariant forall j :: 0 <= j < i ==> nodes[current].fscore <= nodes[slots[j]].fscore
        invariant forall j :: 0 <= j < idx ==> nodes[current].fscore < nodes[slots[j]].fscore
      {
        if nodes[slots[i]].fscore < nodes[current].fscore { current, idx := slots[i], i; }
        i := i + 1;
      }
      at := idx;
      open := open - 1;
      if idx != open { slots[idx] := slots[open]; }
      assert Open() == Removed(was, at);
    }

    /** `add_closed` */
    method AddClosed(idx: int)
      requires Sized() && open + closed < n
      modifies this`closed, slots
      ensures Sized() && Open() == old(Open()) && Closed() == [idx] + old(Closed())
    {
      slots[slots.Length - 1 - closed] := idx;
      closed := closed + 1;
    }

    /** `in_closed` */
    method InClosed(c: Cell) returns (found: bool)
      requires Sized() && InRange(n, Closed())
      ensures found == ClosedCell(Nodes(), Closed(), c)
    {
      ghost var cs := Closed();
      var i := 0;
      while i < closed
        invariant 0 <= i <= closed
        invariant forall k :: closed - i <= k < closed ==> nodes[cs[k]].cell != c
      {
        var idx := slots[slots.Length - 1 - i];
        assert idx == cs[closed - 1 - i];
        if nodes[idx].cell == c {
          assert idx in cs && Nodes()[idx].cell == c;
          return true;
        }
        i := i + 1;
      }
      return false;
    }

    /** `find_open`: the node, or -1. */
    method FindOpen(c: Cell) returns (m: int)
      requires Sized() && InRange(n, Open())
      ensures m >= 0 ==> m in Open() && m < n && nodes[m].cell == c
      ensures m >= 0 <==> At(Nodes(), Open(), c)
    {
      ghost var os := Open();
      var i := 0;
      while i < open
        invariant 0 <= i <= open
        invariant forall k :: 0 <= k < i ==> nodes[os[k]].cell != c
      {
        assert slots[i] == os[i];
        if nodes[slots[i]].cell == c {
          assert slots[i] in os && Nodes()[slots[i]].cell == c;
          return slots[i];
        }
        i := i + 1;
      }
      return -1;
    }

    /** The window of the body: free, or the goal, on every square. */
    method Fits(c: Cell) returns (ok: bool)
      requires pr.Valid()
      ensures ok == Passable(pr, c)
    {
      var p := -pr.bsize;
      while p <= pr.bsize
        invariant -pr.bsize <= p && (p <= pr.bsize + 1 || p == -pr.bsize)
        invariant forall d: Cell :: Covers(pr, c, d) && d.x < c.x + p ==> Free(pr, d)
        decreases pr.bsize - p
      {
        var q := -pr.bsize;
        while q <= pr.bsize
          invariant -pr.bsize <= q <= pr.bsize + 1
          invariant forall d: Cell :: Covers(pr, c, d) && d.x == c.x + p && d.y < c.y + q ==> Free(pr, d)
        {
          var d := Cell(c.x + p, c.y + q);
          if MapGet(pr.grid, d) > 0 && d != pr.end {
            assert Covers(pr, c, d) && !Free(pr, d);
            break;
          }
          q := q + 1;
        }
        if q <= pr.bsize { return false; }
        p := p + 1;
      }
      return true;
    }

    /** `nearest` over the slots `from..to` */
    method Nearest(from: nat, to: nat) returns (ret: int)
      requires Sized() && from < to <= slots.Length
      requires forall j :: from <= j < to ==> 0 <= slots[j] < n
      ensures ret in slots[from..to]
      ensures forall j :: from <= j < to ==> 0 <= ret < n && nodes[ret].fscore <= nodes[slots[j]].fscore
    {
      ret := slots[from];
      ghost var at := from;
      var i := from + 1;
      while i < to
        invariant from <= at < i <= to && ret == slots[at]
        invariant forall j :: from <= j < i ==> nodes[ret].fscore <= nodes[slots[j]].fscore
      {
        if nodes[slots[i]].fscore < nodes[ret].fscore { ret := slots[i]; at := i; }
        i := i + 1;
      }
      assert slots[from..to][at - from] == ret;
    }

    /** One turn of the loop over the neighbours of `current`; `more` is false when the nodes have run out. */
    method Visit(current: int, i: nat) returns (more: bool)
      requires Sized() && InRange(n, Open()) && InRange(n, Closed()) && open + closed == n && 0 <= current < n && i < 8
      modifies this`open, this`n, slots, nodes
      ensures Sized() && Closed() == old(Closed())
      ensures more ==> Turn(pr, old(Nodes()), old(Open()), Closed(), current, i, Nodes(), Open())
      ensures !more ==> Nodes() == old(Nodes()) && Open() == old(Open()) && n == nodes.Length && Wants(pr, Now(), current, i)
    {
      ghost var ns, os, cs := Nodes(), Open(), Closed();
      var pn := nodes[current];
      var c := Cell(pn.cell.x + OFF[i].0, pn.cell.y + OFF[i].1);
      assert c == Neighbour(ns[current].cell, i);
      var skip := InClosed(c);
      if skip { return true; }
      var fits := Fits(c);
      if !fits { return true; }
      var tentative := pn.gscore + OFF[i].2 + OFF[i].2;
      var m := FindOpen(c);
      if m >= 0 {
        assert ns[m].cell == c;
        if tentative < nodes[m].gscore {
          nodes[m] := Node(c, current, tentative, tentative + Distance(c, pr.end));
          assert Nodes() == ns[m := Fresh(pr, ns, current, i)];
        }
        return true;
      }
      more := AddOpen(c, current, tentative);
    }

    /** The loop over the neighbours; it ends early when the nodes have run out. */
    method Expand(current: int)
      requires Valid() && current in Closed()
      modifies this`open, this`n, slots, nodes
      ensures Valid() && Closed() == old(Closed()) && Now() == Sweep(pr, nodes.Length, old(Now()), current, 0)
    {
      hide Inv, Wants, Turn, TurnOf;
      ghost var was := Now();
      var i := 0;
      while i < 8
        invariant i <= 8 && Valid() && Closed() == was.closed
        invariant Sweep(pr, nodes.Length, was, current, 0) == Sweep(pr, nodes.Length, Now(), current, i)
      {
        ghost var s := Now();
        Ranges(pr, s.ns, s.open, s.closed);
        SweepOut(pr, nodes.Length, s, current, i);
        var more := Visit(current, i);
        if !more {
          assert Now() == s;
          return;
        }
        VisitTurns(pr, nodes.Length, s, current, i, Nodes(), Open());
        i := i + 1;
      }
      SweepOut(pr, nodes.Length, Now(), current, 8);
    }

    /** The body of the loop of `path_finding` up to the neighbours; `done` when the goal came up. */
    method Pop() returns (current: int, done: bool)
      requires Valid() && open > 0
      modifies this`open, this`closed, slots
      ensures Sized() && 0 <= current < n && Nodes() == old(Nodes()) && done == (nodes[current].cell == pr.end)
      ensures InRange(|old(Nodes())|, old(Open()))
      ensures var at := FirstLowest(old(Nodes()), old(Open()), |old(Open())|);
        && current == old(Open())[at] && (done ==> Closed() == old(Closed()))
        && (!done ==> Valid() && Now() == Shut(old(Now()), at) && current in Closed())
    {
      ghost var s, at := Now(), 0;
      Ranges(pr, s.ns, s.open, s.closed);
      current, at := LowestFscore();
      LowestOnce(s.ns, s.open, at);
      done := nodes[current].cell == pr.end;
      if !done {
        Closing(pr, s.ns, s.open, s.closed, at);
        AddClosed(current);
      }
    }

    /** `path_finding`: the goal if the search finds it, and the start if not. */
    method PathFinding() returns (node: int)
      requires Sized() && open == closed == n == 0 && nodes.Length >= 1
      modifies this, slots, nodes
      ensures Sized() && var s := Final(pr, nodes.Length);
        Nodes() == s.ns && Closed() == s.closed && node == if s.goal >= 0 then s.goal else 0
    {
      hide Round, Good, Rounds, Final, Sweep, FirstLowest, Removed, InRange;
      var depth := nodes.Length;
      FirstRound(pr, depth);
      var _ := AddOpen(pr.start, -1, 0);
      assert Open() == [0] && Closed() == [] && Nodes() == [Node(pr.start, -1, 0, Fscore(pr, pr.start, 0))];
      ghost var k := 0;
      while open > 0
        invariant Sized() && Now() == Rounds(pr, depth, k)
        decreases depth - closed
      {
        ghost var s := Now();
        RoundsNext(pr, depth, k);
        RoundStep(pr, depth, s);
        var current, done := Pop();
        k := k + 1;
        if done {
          FinalIs(pr, depth, k);
          return current;
        }
        Expand(current);
      }
      FinalIs(pr, depth, k);
      node := NearestClosed();
    }

    /** The loop of `path_finding` ends with an empty open set only, so `nearest` is asked about the closed nodes. */
    method NearestClosed() returns (node: int)
      requires Valid() && open == 0
      ensures node == 0
    {
      Ranges(pr, Nodes(), Open(), Closed());
      ghost var cs := Closed();
      forall j | slots.Length - closed <= j < slots.Length ensures 0 <= slots[j] < n {
        assert cs[j - (slots.Length - closed)] == slots[j];
      }
      node := Nearest(slots.Length - closed, slots.Length);
      assert 0 in cs;
      if node != 0 { StartLowest(pr, Nodes(), cs, node); }
    }

    /** How many cells the path to `node` has. */
    method PathLength(node: int) returns (len: nat)
      requires Sized() && Links(pr, Nodes(), Closed()) && 0 <= node < n
      ensures len == |PathOf(pr, Nodes(), Closed(), node)|
    {
      ghost var ns, cs := Nodes(), Closed();
      assert Linked(pr, ns, cs, node);
      var idx := node;
      len := 1;
      while nodes[idx].camefrom >= 0
        invariant 0 <= idx < n && ns[idx].gscore >= 0
        invariant len - 1 + |PathOf(pr, ns, cs, idx)| == |PathOf(pr, ns, cs, node)|
        decreases ns[idx].gscore
      {
        PathStep(pr, ns, cs, idx);
        idx := nodes[idx].camefrom;
        len := len + 1;
      }
    }

    /** The cells of the path, from `node` back to the start. */
    method Positions(node: int) returns (pos: array<Cell>)
      requires Sized() && Links(pr, Nodes(), Closed()) && 0 <= node < n
      ensures fresh(pos) && pos.Length == |PathOf(pr, Nodes(), Closed(), node)|
      ensures forall j :: 0 <= j < pos.Length ==> pos[j] == PathOf(pr, Nodes(), Closed(), node)[pos.Length - 1 - j]
    {
      ghost var ns, cs := Nodes(), Closed();
      ghost var path := PathOf(pr, ns, cs, node);
      var len := PathLength(node);
      pos := new Cell[len](_ => pr.start);
      var idx, i := node, 0;
      while i < len
        invariant 0 <= i <= len && (i < len ==> 0 <= idx < n && PathOf(pr, ns, cs, idx) == path[..len - i])
        invariant forall j :: 0 <= j < i ==> pos[j] == path[len - 1 - j]
        invariant Nodes() == ns && Closed() == cs
      {
        if nodes[idx].camefrom >= 0 { PathStep(pr, ns, cs, idx); }
        assert path[..len - i][len - i - 1] == nodes[idx].cell;
        pos[i] := nodes[idx].cell;
        idx := nodes[idx].camefrom;
        i := i + 1;
      }
    }
  }

  lemma VisitTurns(pr: Problem, depth: nat, s: State, current: int, i: nat, ms: seq<Node>, open: seq<int>)
    requires pr.Valid() && Good(pr, depth, s) && current in s.closed && 0 <= current < |s.ns| && i < 8 && |ms| <= depth
    requires Turn(pr, s.ns, s.open, s.closed, current, i, ms, open)
    ensures TurnOf(pr, s, current, i) == s.(ns := ms, open := open)
    ensures !(Wants(pr, s, current, i) && |s.ns| == depth)
  {
    TurnOnce(pr, s, current, i, ms, open);
  }

  /** A round, as the loop goes through it. */
  lemma RoundStep(pr: Problem, depth: nat, s: State)
    requires pr.Valid() && Good(pr, depth, s) && s.open != [] && s.goal < 0
    ensures InRange(|s.ns|, s.open)
    ensures var at := FirstLowest(s.ns, s.open, |s.open|); var current := s.open[at];
      && (s.ns[current].cell == pr.end ==> Round(pr, depth, s) == s.(goal := current))
      && (s.ns[current].cell != pr.end ==>
          && Good(pr, depth, Shut(s, at)) && current in Shut(s, at).closed
          && Round(pr, depth, s) == Sweep(pr, depth, Shut(s, at), current, 0))
  {
    hide Sweep;
    Ranges(pr, s.ns, s.open, s.closed);
    var at := FirstLowest(s.ns, s.open, |s.open|);
    if s.ns[s.open[at]].cell != pr.end { Closing(pr, s.ns, s.open, s.closed, at); }
  }

  lemma FirstRound(pr: Problem, depth: nat)
    requires pr.Valid() && depth >= 1
    ensures Rounds(pr, depth, 0) == State([Node(pr.start, -1, 0, Fscore(pr, pr.start, 0))], [0], [], -1)
  {
  }

  lemma FinalIs(pr: Problem, depth: nat, k: nat)
    requires pr.Valid() && depth >= 1 && Ended(Rounds(pr, depth, k))
    ensures Final(pr, depth) == Rounds(pr, depth, k)
  {
    hide Rounds;
    EndsInTime(pr, depth, depth);
    if k <= depth { StaysEnded(pr, depth, k, depth); } else { StaysEnded(pr, depth, depth, k); }
  }

  /** The way that the search finds, as a function of the problem and the room for nodes. */
  ghost function Way(pr: Problem, depth: nat): (w: seq<Cell>)
    requires pr.Valid() && depth >= 1
    ensures Walk(pr, w) && NoRepeat(w) && (if Finds(pr, depth) then w[|w| - 1] == pr.end else w == [pr.start])
  {
    var s := Final(pr, depth);
    var node := if s.goal >= 0 then s.goal else 0;
    assert Linked(pr, s.ns, s.closed, 0);
    PathOfWalk(pr, s.ns, s.closed, node);
    PathOfDistinct(pr, s.ns, s.closed, node);
    PathOf(pr, s.ns, s.closed, node)
  }

  lemma WayIs(pr: Problem, depth: nat)
    requires pr.Valid() && depth >= 1
    ensures var s := Final(pr, depth); var node := if s.goal >= 0 then s.goal else 0;
      Links(pr, s.ns, s.closed) && Way(pr, depth) == PathOf(pr, s.ns, s.closed, node)
  {
    hide Rounds, Final;
  }

  lemma WayCost(pr: Problem, depth: nat)
    requires pr.Valid() && depth >= 1 && Finds(pr, depth)
    ensures Cost(Way(pr, depth)) == Final(pr, depth).ns[Final(pr, depth).goal].gscore
  {
    hide Rounds, Final;
    var s := Final(pr, depth);
    PathOfWalk(pr, s.ns, s.closed, s.goal);
  }

  /**
   `lpath`: a search with room for `depth` nodes, and the path found.

   The path is a walk without a repetition, to the goal or no further than the start. If there is a walk to the goal
   and room for its region, the path is a cheapest walk to the goal. The path stays at the start only where no walk
   leads to the goal, or where the search has used up its room on different cells without coming to the goal.
   */
  method FindPath(pr: Problem, depth: nat) returns (path: seq<Cell>)
    requires pr.Valid() && depth >= 1
    ensures Walk(pr, path) && (path[|path| - 1] == pr.end || path == [pr.start])
    ensures NoRepeat(path)
    ensures Promised(pr, depth, path)
    ensures AllRoom(pr, depth) ==> (path[|path| - 1] == pr.end <==> exists w :: WalkTo(pr, w, pr.end))
    ensures AllRoom(pr, depth) && path[|path| - 1] == pr.end ==> Cheapest(pr, pr.end, Cost(path))
  {
    hide Rounds, Final, Promised, Cheapest, Walk, NoRepeat, AllRoom;
    var ctx := new Context(pr, depth);
    var node := ctx.PathFinding();
    ghost var whole := Way(pr, depth);
    WayIs(pr, depth);
    var pos := ctx.Positions(node);
    path := [];
    var i := pos.Length - 1;
    while i >= 0
      invariant -1 <= i < pos.Length && path == whole[..pos.Length - 1 - i]
    {
      path := path + [pos[i]];
      i := i - 1;
    }
    assert path == whole;
    WayLaws(pr, depth);
    if AllRoom(pr, depth) { RoomyLaws(pr, depth, path); }
  }

  /** The path ends at the goal exactly if the search finds it. */
  lemma WayEnds(pr: Problem, depth: nat)
    requires pr.Valid() && depth >= 1
    ensures var path := Way(pr, depth); path[|path| - 1] == pr.end <==> Finds(pr, depth)
    ensures Finds(pr, depth) <==> pr.end in Discovered(pr, depth)
  {
    hide Rounds, Final, Way, Discovered;
    FindsExactly(pr, depth);
    StartDiscovered(pr, depth);
  }

  lemma StartDiscovered(pr: Problem, depth: nat)
    requires pr.Valid() && depth >= 1
    ensures pr.start in Discovered(pr, depth)
  {
    hide Rounds, Final;
    var s := Final(pr, depth);
    assert Linked(pr, s.ns, s.closed, 0);
    assert Cells(s)[0] == pr.start;
  }

  ghost predicate AllRoom(pr: Problem, depth: nat) { pr.bsize >= 0 && depth >= pr.grid.width * pr.grid.height }

  /** What the way promises. */
  ghost predicate Promised(pr: Problem, depth: nat, path: seq<Cell>)
    requires pr.Valid() && depth >= 1 && |path| > 0
  {
    var found := path[|path| - 1] == pr.end;
    && (forall w :: WalkTo(pr, w, pr.end) && Enough(pr, Cost(w), depth) ==> found && Cheapest(pr, pr.end, Cost(path)))
    && (found <==> pr.end in Discovered(pr, depth))
    && (!found ==> |Discovered(pr, depth)| == depth || forall w :: !WalkTo(pr, w, pr.end))
  }

  lemma WayLaws(pr: Problem, depth: nat)
    requires pr.Valid() && depth >= 1
    ensures Promised(pr, depth, Way(pr, depth))
  {
    hide Rounds, Final, Way, Discovered, Finds, Cheapest, WalkTo, Enough;
    WayEnds(pr, depth);
    var path := Way(pr, depth);
    forall w | WalkTo(pr, w, pr.end) && Enough(pr, Cost(w), depth)
      ensures path[|path| - 1] == pr.end && Cheapest(pr, pr.end, Cost(path))
    {
      EnoughRoom(pr, depth, w);
      WayCost(pr, depth);
    }
    if !Finds(pr, depth) {
      forall w | WalkTo(pr, w, pr.end) ensures |Discovered(pr, depth)| == depth { MissesOnlyWhenFull(pr, depth, w); }
    }
  }

  lemma RoomyLaws(pr: Problem, depth: nat, path: seq<Cell>)
    requires pr.Valid() && depth >= 1 && Walk(pr, path) && Promised(pr, depth, path) && AllRoom(pr, depth)
    ensures path[|path| - 1] == pr.end <==> exists w :: WalkTo(pr, w, pr.end)
    ensures path[|path| - 1] == pr.end ==> Cheapest(pr, pr.end, Cost(path))
  {
    hide Discovered, Cheapest, Enough;
    if path[|path| - 1] == pr.end { assert WalkTo(pr, path, pr.end); }
    forall w | WalkTo(pr, w, pr.end) ensures Enough(pr, Cost(w), depth) { WholeMap(pr, depth, Cost(w)); }
  }
}
