/**
 The search of `pathfinding.c` as a function of the problem and of the room for nodes: what it discovers, in which
 order, and how much room it needs.
 */
module AStarRoom {

  import opened AStarGrid
  import opened AStarSearch

  /** The nodes and the two sets; `goal` is the node at the goal once that has come up, and -1 before. */
  datatype State = State(ns: seq<Node>, open: seq<int>, closed: seq<int>, goal: int)

  ghost predicate Good(pr: Problem, depth: nat, s: State)
    requires pr.Valid()
  {
    && Inv(pr, s.ns, s.open, s.closed) && |s.ns| <= depth
    && -1 <= s.goal < |s.ns| && (s.goal >= 0 ==> s.goal in s.open && s.ns[s.goal].cell == pr.end)
  }

  /** The first of the lowest scores among the first `k` open nodes. */
  ghost function FirstLowest(ns: seq<Node>, open: seq<int>, k: nat): (at: nat)
    requires 0 < k <= |open| && InRange(|ns|, open)
    ensures at < k && forall j :: 0 <= j < k ==> ns[open[at]].fscore <= ns[open[j]].fscore
    ensures forall j :: 0 <= j < at ==> ns[open[at]].fscore < ns[open[j]].fscore
  {
    if k == 1 then 0
    else
      var at := FirstLowest(ns, open, k - 1);
      if ns[open[k - 1]].fscore < ns[open[at]].fscore then k - 1 else at
  }

  lemma LowestOnce(ns: seq<Node>, open: seq<int>, at: nat)
    requires Lowest(ns, open, at) && forall j :: 0 <= j < at ==> ns[open[at]].fscore < ns[open[j]].fscore
    ensures at == FirstLowest(ns, open, |open|)
  {
  }

  /** A passable neighbour has no node yet. */
  ghost predicate Wants(pr: Problem, s: State, current: int, i: nat)
    requires pr.Valid() && 0 <= current < |s.ns| && i < 8
  {
    var b := Neighbour(s.ns[current].cell, i);
    Passable(pr, b) && !ClosedCell(s.ns, s.closed, b) && !At(s.ns, s.open, b)
  }

  /** One neighbour, with room for its node. */
  ghost function TurnOf(pr: Problem, s: State, current: int, i: nat): (t: State)
    requires pr.Valid() && 0 <= current < |s.ns| && i < 8
    ensures Turn(pr, s.ns, s.open, s.closed, current, i, t.ns, t.open) && t.closed == s.closed && t.goal == s.goal
    ensures |t.ns| == |s.ns| + if Wants(pr, s, current, i) then 1 else 0
  {
    var b, f := Neighbour(s.ns[current].cell, i), Fresh(pr, s.ns, current, i);
    if ClosedCell(s.ns, s.closed, b) || !Passable(pr, b) then s
    else if At(s.ns, s.open, b) then
      var m :| m in s.open && 0 <= m < |s.ns| && s.ns[m].cell == b;
      if f.gscore < s.ns[m].gscore then s.(ns := s.ns[m := f]) else s
    else s.(ns := s.ns + [f], open := s.open + [|s.ns|])
  }

  lemma TurnOnce(pr: Problem, s: State, current: int, i: nat, ms: seq<Node>, open: seq<int>)
    requires pr.Valid() && 0 <= current < |s.ns| && i < 8 && Distinct(s.ns)
    requires Turn(pr, s.ns, s.open, s.closed, current, i, ms, open)
    ensures TurnOf(pr, s, current, i) == s.(ns := ms, open := open)
  {
    var t := TurnOf(pr, s, current, i);
    var b := Neighbour(s.ns[current].cell, i);
    if !ClosedCell(s.ns, s.closed, b) && Passable(pr, b) && At(s.ns, s.open, b) {
      var f := Fresh(pr, s.ns, current, i);
      var m :| m in s.open && 0 <= m < |s.ns| && s.ns[m].cell == b && ms == if f.gscore < s.ns[m].gscore then s.ns[m := f] else s.ns;
      var k :| k in s.open && 0 <= k < |s.ns| && s.ns[k].cell == b && t.ns == if f.gscore < s.ns[k].gscore then s.ns[k := f] else s.ns;
      assert m == k;
    }
  }

  /** The neighbours of `current` from number `i` on, until one finds no room. */
  ghost function Sweep(pr: Problem, depth: nat, s: State, current: int, i: nat): (t: State)
    requires pr.Valid() && Good(pr, depth, s) && current in s.closed && i <= 8
    ensures Good(pr, depth, t) && t.closed == s.closed && t.goal == s.goal
    decreases 8 - i
  {
    Ranges(pr, s.ns, s.open, s.closed);
    if i == 8 || (Wants(pr, s, current, i) && |s.ns| == depth) then s
    else
      var t := TurnOf(pr, s, current, i);
      TurnKeeps(pr, s.ns, s.open, s.closed, current, i, t.ns, t.open);
      TurnGood(pr, depth, s, current, i);
      Sweep(pr, depth, t, current, i + 1)
  }

  lemma TurnGood(pr: Problem, depth: nat, s: State, current: int, i: nat)
    requires pr.Valid() && Good(pr, depth, s) && current in s.closed && i < 8 && 0 <= current < |s.ns|
    requires !(Wants(pr, s, current, i) && |s.ns| == depth)
    ensures Good(pr, depth, TurnOf(pr, s, current, i))
    ensures Cells(s) <= Cells(TurnOf(pr, s, current, i))
    ensures !Wants(pr, s, current, i) ==> Cells(s) == Cells(TurnOf(pr, s, current, i))
  {
    var t := TurnOf(pr, s, current, i);
    TurnKeeps(pr, s.ns, s.open, s.closed, current, i, t.ns, t.open);
    assert forall k :: 0 <= k < |s.ns| ==> t.ns[k].cell == s.ns[k].cell;
  }

  /** The cells that have a node, in the order of their discovery. */
  ghost function Cells(s: State): seq<Cell> { seq(|s.ns|, k requires 0 <= k < |s.ns| => s.ns[k].cell) }

  ghost predicate Ended(s: State) { s.goal >= 0 || s.open == [] }

  /** One round of the loop of `path_finding`. */
  ghost function Round(pr: Problem, depth: nat, s: State): (t: State)
    requires pr.Valid() && Good(pr, depth, s)
    ensures Good(pr, depth, t)
    ensures if Ended(s) then t == s else t.goal >= 0 || |t.closed| == |s.closed| + 1
  {
    if Ended(s) then s
    else
      Ranges(pr, s.ns, s.open, s.closed);
      var at := FirstLowest(s.ns, s.open, |s.open|);
      var current := s.open[at];
      if s.ns[current].cell == pr.end then s.(goal := current)
      else
        Closing(pr, s.ns, s.open, s.closed, at);
        Sweep(pr, depth, Shut(s, at), current, 0)
  }

  /** Open node `at` is closed. */
  ghost function Shut(s: State, at: nat): State
    requires at < |s.open|
  {
    s.(open := Removed(s.open, at), closed := [s.open[at]] + s.closed)
  }

  ghost function Rounds(pr: Problem, depth: nat, k: nat): (s: State)
    requires pr.Valid() && depth >= 1
    ensures Good(pr, depth, s)
  {
    if k == 0 then
      Begun(pr);
      State([Node(pr.start, -1, 0, Fscore(pr, pr.start, 0))], [0], [], -1)
    else Round(pr, depth, Rounds(pr, depth, k - 1))
  }

  /** The loop ends within as many rounds as there is room for nodes. */
  lemma {:induction false} EndsInTime(pr: Problem, depth: nat, k: nat)
    requires pr.Valid() && depth >= 1
    ensures Ended(Rounds(pr, depth, k)) || |Rounds(pr, depth, k).closed| == k
    ensures k >= depth ==> Ended(Rounds(pr, depth, k))
  {
    hide Round, Good;
    if k == 0 {
      NoneClosed(pr, depth);
    } else {
      EndsInTime(pr, depth, k - 1);
      RoundsNext(pr, depth, k - 1);
    }
    ClosedRoom(pr, depth, Rounds(pr, depth, k));
  }

  lemma NoneClosed(pr: Problem, depth: nat)
    requires pr.Valid() && depth >= 1
    ensures Rounds(pr, depth, 0).closed == []
  {
  }

  /** With as many closed nodes as there is room for, nothing is open. */
  lemma ClosedRoom(pr: Problem, depth: nat, s: State)
    requires pr.Valid() && Good(pr, depth, s)
    ensures |s.closed| <= depth && (|s.closed| == depth ==> s.open == [])
  {
    Ranges(pr, s.ns, s.open, s.closed);
  }

  lemma {:induction false} StaysEnded(pr: Problem, depth: nat, k: nat, l: nat)
    requires pr.Valid() && depth >= 1 && k <= l && Ended(Rounds(pr, depth, k))
    ensures Rounds(pr, depth, l) == Rounds(pr, depth, k)
    decreases l
  {
    hide Round, Good, Ended;
    if k < l {
      StaysEnded(pr, depth, k, l - 1);
      RoundsNext(pr, depth, l - 1);
    }
  }

  lemma RoundsNext(pr: Problem, depth: nat, k: nat)
    requires pr.Valid() && depth >= 1
    ensures Rounds(pr, depth, k + 1) == Round(pr, depth, Rounds(pr, depth, k))
  {
    hide Round, Good;
  }

  /** Where the search ends. */
  ghost function Final(pr: Problem, depth: nat): (s: State)
    requires pr.Valid() && depth >= 1
    ensures Good(pr, depth, s) && Ended(s)
  {
    EndsInTime(pr, depth, depth);
    Rounds(pr, depth, depth)
  }

  // ----- more room, the same cells first -----

  lemma {:induction false} SweepGrows(pr: Problem, depth: nat, s: State, current: int, i: nat)
    requires pr.Valid() && Good(pr, depth, s) && current in s.closed && i <= 8
    ensures Cells(s) <= Cells(Sweep(pr, depth, s, current, i))
    decreases 8 - i
  {
    hide Wants, TurnOf, Good, Cells, Inv;
    SweepOut(pr, depth, s, current, i);
    if i < 8 && !(Wants(pr, s, current, i) && |s.ns| == depth) {
      SweepGrows(pr, depth, TurnOf(pr, s, current, i), current, i + 1);
    }
  }

  /** The two ways a sweep goes on. */
  lemma SweepOut(pr: Problem, depth: nat, s: State, current: int, i: nat)
    requires pr.Valid() && Good(pr, depth, s) && current in s.closed && i <= 8
    ensures 0 <= current < |s.ns| <= depth
    ensures i == 8 || (Wants(pr, s, current, i) && |s.ns| == depth) ==> Sweep(pr, depth, s, current, i) == s
    ensures i < 8 && !(Wants(pr, s, current, i) && |s.ns| == depth) ==>
      var t := TurnOf(pr, s, current, i);
      Good(pr, depth, t) && current in t.closed && Sweep(pr, depth, s, current, i) == Sweep(pr, depth, t, current, i + 1) && Cells(s) <= Cells(t)
  {
    hide Wants, TurnOf, Cells;
    Ranges(pr, s.ns, s.open, s.closed);
    if i < 8 && !(Wants(pr, s, current, i) && |s.ns| == depth) { TurnGood(pr, depth, s, current, i); }
  }

  lemma RoundGrows(pr: Problem, depth: nat, s: State)
    requires pr.Valid() && Good(pr, depth, s)
    ensures Cells(s) <= Cells(Round(pr, depth, s))
  {
    hide Sweep, Inv;
    if !Ended(s) {
      Ranges(pr, s.ns, s.open, s.closed);
      var at := FirstLowest(s.ns, s.open, |s.open|);
      if s.ns[s.open[at]].cell != pr.end {
        Closing(pr, s.ns, s.open, s.closed, at);
        SweepGrows(pr, depth, Shut(s, at), s.open[at], 0);
      }
    }
  }

  /** What less room leaves out comes last. */
  ghost predicate Behind(d: nat, a: State, b: State) { a == b || (|a.ns| == d && Cells(a) <= Cells(b)) }

  lemma MoreGood(pr: Problem, d: nat, D: nat, s: State)
    requires pr.Valid() && d <= D && Good(pr, d, s)
    ensures Good(pr, D, s)
  {
  }

  lemma {:induction false} TwoSweeps(pr: Problem, d: nat, D: nat, s: State, current: int, i: nat)
    requires pr.Valid() && d <= D && Good(pr, d, s) && Good(pr, D, s) && current in s.closed && i <= 8
    ensures Behind(d, Sweep(pr, d, s, current, i), Sweep(pr, D, s, current, i))
    decreases 8 - i
  {
    hide Wants, TurnOf, Good, Cells, Inv;
    SweepOut(pr, d, s, current, i);
    SweepOut(pr, D, s, current, i);
    if i < 8 {
      if Wants(pr, s, current, i) && |s.ns| == d {
        SweepGrows(pr, D, s, current, i);
      } else {
        TwoSweeps(pr, d, D, TurnOf(pr, s, current, i), current, i + 1);
      }
    }
  }

  lemma TwoRounds(pr: Problem, d: nat, D: nat, s: State)
    requires pr.Valid() && d <= D && Good(pr, d, s) && Good(pr, D, s)
    ensures Behind(d, Round(pr, d, s), Round(pr, D, s))
  {
    hide Sweep, Inv, Behind;
    assert Behind(d, s, s) by { Same(d, s); }
    if !Ended(s) {
      Ranges(pr, s.ns, s.open, s.closed);
      var at := FirstLowest(s.ns, s.open, |s.open|);
      var current := s.open[at];
      if s.ns[current].cell != pr.end {
        Closing(pr, s.ns, s.open, s.closed, at);
        TwoSweeps(pr, d, D, Shut(s, at), current, 0);
      } else {
        Same(d, s.(goal := current));
      }
    }
  }

  lemma Same(d: nat, s: State)
    ensures Behind(d, s, s)
  {
  }

  lemma {:induction false} Prefix(pr: Problem, d: nat, D: nat, k: nat)
    requires pr.Valid() && 1 <= d <= D
    ensures Behind(d, Rounds(pr, d, k), Rounds(pr, D, k))
  {
    hide Round, Inv, Cells;
    if k > 0 {
      Prefix(pr, d, D, k - 1);
      RoundsNext(pr, d, k - 1);
      RoundsNext(pr, D, k - 1);
      var a, b := Rounds(pr, d, k - 1), Rounds(pr, D, k - 1);
      if a == b {
        TwoRounds(pr, d, D, a);
      } else {
        RoundGrows(pr, d, a);
        RoundGrows(pr, D, b);
        CellsLength(a);
        CellsLength(Round(pr, d, a));
      }
    }
  }

  lemma CellsLength(s: State)
    ensures |Cells(s)| == |s.ns|
  {
  }

  /** The cells that the search discovers, in order. */
  ghost function Discovered(pr: Problem, depth: nat): seq<Cell>
    requires pr.Valid() && depth >= 1
  {
    Cells(Final(pr, depth))
  }

  ghost predicate Finds(pr: Problem, depth: nat)
    requires pr.Valid() && depth >= 1
  {
    Final(pr, depth).goal >= 0
  }

  /** The goal is found exactly if it is discovered. */
  lemma FindsExactly(pr: Problem, depth: nat)
    requires pr.Valid() && depth >= 1
    ensures Finds(pr, depth) <==> pr.end in Discovered(pr, depth)
  {
    hide Rounds, Final;
    var s := Final(pr, depth);
    if s.goal >= 0 {
      assert Cells(s)[s.goal] == pr.end;
    } else {
      assert forall k :: 0 <= k < |s.ns| ==> k in s.closed && s.ns[k].cell != pr.end;
    }
  }

  /** More room changes nothing but what comes behind. */
  lemma MoreRoom(pr: Problem, d: nat, D: nat)
    requires pr.Valid() && 1 <= d <= D
    ensures var all := Discovered(pr, D);
      Discovered(pr, d) == if d <= |all| then all[..d] else all
    ensures Finds(pr, d) <==> pr.end in (if d <= |Discovered(pr, D)| then Discovered(pr, D)[..d] else Discovered(pr, D))
  {
    hide Rounds, Inv, Cells;
    FindsExactly(pr, d);
    Prefix(pr, d, D, D);
    EndsInTime(pr, d, d);
    StaysEnded(pr, d, d, D);
    var a, b := Final(pr, d), Final(pr, D);
    CellsLength(a);
    CellsLength(b);
  }

  // ----- how much room is enough -----

  /** Some walk to `c`, and the distance to the goal on top of it, stay within the bound. */
  ghost predicate Promising(pr: Problem, c: Cell, bound: int)
    requires pr.Valid()
  {
    exists w :: WalkTo(pr, w, c) && Cost(w) + Distance(c, pr.end) <= bound
  }

  /** The start, and the passable cells next to a promising one that is not the goal. */
  ghost predicate InRegion(pr: Problem, b: Cell, bound: int)
    requires pr.Valid()
  {
    b == pr.start || (Passable(pr, b) && exists c :: Promising(pr, c, bound) && c != pr.end && Adjacent(c, b))
  }

  ghost predicate Region(pr: Problem, cells: seq<Cell>, bound: int)
    requires pr.Valid()
  {
    NoRepeat(cells) && forall k :: 0 <= k < |cells| ==> InRegion(pr, cells[k], bound)
  }

  /** There are no more cells in the region than there is room for. */
  ghost predicate Enough(pr: Problem, bound: int, depth: nat)
    requires pr.Valid()
  {
    forall cells :: Region(pr, cells, bound) ==> |cells| <= depth
  }

  /** All scores of closed nodes stay within the bound. */
  ghost predicate Near(s: State, bound: int) {
    forall k <- s.closed :: 0 <= k < |s.ns| ==> s.ns[k].fscore <= bound
  }

  ghost predicate Overflows(pr: Problem, depth: nat, s: State, bound: int)
    requires pr.Valid()
  {
    |s.ns| == depth && exists b :: Region(pr, Cells(s) + [b], bound)
  }

  /** Nothing was refused so far, and only promising nodes were closed. */
  ghost predicate Lean(pr: Problem, s: State, bound: int, current: int, i: nat)
    requires pr.Valid() && i <= 8
  {
    Complete(pr, s.ns, s.open, s.closed, current, i) && Near(s, bound)
  }

  /** The neighbours of a closed node are in the region. */
  lemma NextToClosed(pr: Problem, s: State, bound: int, k: int, b: Cell)
    requires pr.Valid() && Inv(pr, s.ns, s.open, s.closed) && Near(s, bound)
    requires k in s.closed && 0 <= k < |s.ns| && Adjacent(s.ns[k].cell, b) && Passable(pr, b)
    ensures InRegion(pr, b, bound)
  {
    var c := s.ns[k].cell;
    assert Linked(pr, s.ns, s.closed, k);
    PathOfWalk(pr, s.ns, s.closed, k);
    assert WalkTo(pr, PathOf(pr, s.ns, s.closed, k), c);
    assert Promising(pr, c, bound);
  }

  lemma NodesInRegion(pr: Problem, s: State, bound: int)
    requires pr.Valid() && Inv(pr, s.ns, s.open, s.closed) && Near(s, bound)
    ensures Region(pr, Cells(s), bound)
  {
    forall k | 0 <= k < |s.ns| ensures InRegion(pr, s.ns[k].cell, bound) {
      assert Linked(pr, s.ns, s.closed, k);
      if k > 0 { NextToClosed(pr, s, bound, s.ns[k].camefrom, s.ns[k].cell); }
    }
  }

  /** A node that finds no room stands for one cell more than there is room for. */
  lemma RefusalOverflows(pr: Problem, depth: nat, s: State, bound: int, current: int, i: nat)
    requires pr.Valid() && Good(pr, depth, s) && Near(s, bound) && current in s.closed && 0 <= current < |s.ns| && i < 8
    requires Wants(pr, s, current, i) && |s.ns| == depth
    ensures Overflows(pr, depth, s, bound)
  {
    hide InRegion, Near;
    var b := Neighbour(s.ns[current].cell, i);
    NeighbourAdjacent(s.ns[current].cell, i);
    NodesInRegion(pr, s, bound);
    NextToClosed(pr, s, bound, current, b);
    NewCell(s.ns, s.open, s.closed, b);
    assert Region(pr, Cells(s) + [b], bound);
  }

  lemma TurnLean(pr: Problem, depth: nat, s: State, bound: int, current: int, i: nat)
    requires pr.Valid() && Good(pr, depth, s) && current in s.closed && 0 <= current < |s.ns| && i < 8
    requires Lean(pr, s, bound, current, i)
    ensures Lean(pr, TurnOf(pr, s, current, i), bound, current, i + 1)
  {
    hide Complete, Optimal, Expanded;
    var t := TurnOf(pr, s, current, i);
    TurnKeeps(pr, s.ns, s.open, s.closed, current, i, t.ns, t.open);
    TurnLeavesClosed(pr, s, current, i);
  }

  lemma TurnLeavesClosed(pr: Problem, s: State, current: int, i: nat)
    requires pr.Valid() && Inv(pr, s.ns, s.open, s.closed) && 0 <= current < |s.ns| && i < 8
    ensures var t := TurnOf(pr, s, current, i); forall k <- s.closed :: 0 <= k < |s.ns| <= |t.ns| && t.ns[k] == s.ns[k]
  {
  }

  lemma {:induction false} SweepLean(pr: Problem, depth: nat, s: State, bound: int, current: int, i: nat)
    requires pr.Valid() && Good(pr, depth, s) && current in s.closed && i <= 8 && Lean(pr, s, bound, current, i)
    ensures var t := Sweep(pr, depth, s, current, i); Lean(pr, t, bound, -1, 0) || Overflows(pr, depth, t, bound)
    decreases 8 - i
  {
    hide Wants, TurnOf, Good, Cells, Near, Overflows, Optimal, Expanded;
    SweepOut(pr, depth, s, current, i);
    if i == 8 {
      ExpandedAll(pr, s.ns, s.open, s.closed, current);
    } else if Wants(pr, s, current, i) && |s.ns| == depth {
      RefusalOverflows(pr, depth, s, bound, current, i);
    } else {
      TurnLean(pr, depth, s, bound, current, i);
      SweepLean(pr, depth, TurnOf(pr, s, current, i), bound, current, i + 1);
    }
  }

  /** As long as nothing was refused, the lowest open node is no worse than any walk to the goal. */
  lemma PopNear(pr: Problem, s: State, at: nat, w: seq<Cell>)
    requires pr.Valid() && Complete(pr, s.ns, s.open, s.closed, -1, 0) && Lowest(s.ns, s.open, at) && WalkTo(pr, w, pr.end)
    ensures s.ns[s.open[at]].fscore <= Cost(w)
  {
    hide Optimal, Expanded;
    var j, m := Frontier(pr, s.ns, s.open, s.closed, w);
    assert Linked(pr, s.ns, s.closed, m);
    CostSplit(w, j);
    Suffix(pr, w, j);
  }

  lemma RoundLean(pr: Problem, depth: nat, s: State, w: seq<Cell>)
    requires pr.Valid() && Good(pr, depth, s) && WalkTo(pr, w, pr.end) && Lean(pr, s, Cost(w), -1, 0)
    ensures var t := Round(pr, depth, s); Lean(pr, t, Cost(w), -1, 0) || Overflows(pr, depth, t, Cost(w))
    ensures Round(pr, depth, s).goal >= 0 && s.goal < 0 ==>
      Cheapest(pr, pr.end, Round(pr, depth, s).ns[Round(pr, depth, s).goal].gscore)
  {
    hide Sweep, Optimal, Expanded, Overflows, Cheapest, WalkTo, Cost;
    if !Ended(s) {
      Ranges(pr, s.ns, s.open, s.closed);
      var at := FirstLowest(s.ns, s.open, |s.open|);
      var current := s.open[at];
      PopNear(pr, s, at, w);
      PopKeeps(pr, s.ns, s.open, s.closed, at);
      if s.ns[current].cell != pr.end {
        Closing(pr, s.ns, s.open, s.closed, at);
        SweepLean(pr, depth, Shut(s, at), Cost(w), current, 0);
      }
    }
  }

  /** A full set of nodes that leaves a cell of the region out stays so. */
  lemma StaysOver(pr: Problem, depth: nat, s: State, bound: int)
    requires pr.Valid() && Good(pr, depth, s) && Overflows(pr, depth, s, bound)
    ensures Overflows(pr, depth, Round(pr, depth, s), bound)
  {
    hide Round, Inv, Region;
    RoundGrows(pr, depth, s);
    var t := Round(pr, depth, s);
    CellsLength(s);
    CellsLength(t);
    assert Cells(s) == Cells(t);
  }

  /** The best is found, or the region is too large, after any number of rounds. */
  lemma {:induction false} RoundsLean(pr: Problem, depth: nat, k: nat, w: seq<Cell>)
    requires pr.Valid() && depth >= 1 && WalkTo(pr, w, pr.end)
    ensures var s := Rounds(pr, depth, k);
      || Overflows(pr, depth, s, Cost(w))
      || (Lean(pr, s, Cost(w), -1, 0) && (s.goal >= 0 ==> Cheapest(pr, pr.end, s.ns[s.goal].gscore)))
  {
    hide Round, Overflows, Cheapest, WalkTo, Cost, Complete;
    if k == 0 {
      FirstLean(pr, depth, Cost(w));
    } else {
      RoundsLean(pr, depth, k - 1, w);
      RoundsNext(pr, depth, k - 1);
      var s := Rounds(pr, depth, k - 1);
      if Overflows(pr, depth, s, Cost(w)) {
        StaysOver(pr, depth, s, Cost(w));
      } else {
        RoundLean(pr, depth, s, w);
        if s.goal >= 0 { assert Ended(s); }
      }
    }
  }

  lemma FirstLean(pr: Problem, depth: nat, bound: int)
    requires pr.Valid() && depth >= 1
    ensures Lean(pr, Rounds(pr, depth, 0), bound, -1, 0) && Rounds(pr, depth, 0).goal < 0
  {
    Begun(pr);
  }

  /**
   A search that stays at the start although a walk leads to the goal has used up its room, on different cells of the
   region of that walk, and has left a cell of it out.
   */
  lemma MissesOnlyWhenFull(pr: Problem, depth: nat, w: seq<Cell>)
    requires pr.Valid() && depth >= 1 && WalkTo(pr, w, pr.end) && !Finds(pr, depth)
    ensures |Discovered(pr, depth)| == depth && exists b :: Region(pr, Discovered(pr, depth) + [b], Cost(w))
  {
    hide Rounds, Cheapest, Cost;
    RoundsLean(pr, depth, depth, w);
    var s := Final(pr, depth);
    CellsLength(s);
    if !Overflows(pr, depth, s, Cost(w)) {
      EmptyMeansUnreachable(pr, s.ns, s.closed, w);
    }
  }

  /** With room for the region of a walk to the goal, the goal is found, at least cost. */
  lemma EnoughRoom(pr: Problem, depth: nat, w: seq<Cell>)
    requires pr.Valid() && depth >= 1 && WalkTo(pr, w, pr.end) && Enough(pr, Cost(w), depth)
    ensures Finds(pr, depth) && Cheapest(pr, pr.end, Final(pr, depth).ns[Final(pr, depth).goal].gscore)
  {
    hide Rounds, Cheapest, Cost, Region;
    RoundsLean(pr, depth, depth, w);
    var s := Final(pr, depth);
    CellsLength(s);
    assert !Overflows(pr, depth, s, Cost(w));
    if s.goal < 0 { MissesOnlyWhenFull(pr, depth, w); }
  }

  /** What is discovered are different cells that can be reached, the start first. */
  lemma DiscoveredReachable(pr: Problem, depth: nat, k: nat) returns (w: seq<Cell>)
    requires pr.Valid() && depth >= 1 && k < |Discovered(pr, depth)|
    ensures WalkTo(pr, w, Discovered(pr, depth)[k])
    ensures NoRepeat(Discovered(pr, depth)) && |Discovered(pr, depth)| <= depth && Discovered(pr, depth)[0] == pr.start
  {
    hide Rounds, Final, WalkTo;
    var s := Final(pr, depth);
    assert Linked(pr, s.ns, s.closed, 0);
    PathOfWalk(pr, s.ns, s.closed, k);
    w := PathOf(pr, s.ns, s.closed, k);
  }

  // ----- simple sizes that are enough -----

  lemma RegionInside(pr: Problem, b: Cell, bound: int)
    requires pr.Valid() && pr.bsize >= 0 && InRegion(pr, b, bound)
    ensures pr.grid.Inside(b)
  {
    if b != pr.start { PassableInside(pr, b); }
  }

  /** Room for the whole map is enough. */
  lemma WholeMap(pr: Problem, depth: nat, bound: int)
    requires pr.Valid() && pr.bsize >= 0 && depth >= pr.grid.width * pr.grid.height
    ensures Enough(pr, bound, depth)
  {
    hide InRegion;
    forall cells | Region(pr, cells, bound) ensures |cells| <= depth {
      forall k | 0 <= k < |cells| ensures pr.grid.Inside(cells[k]) { RegionInside(pr, cells[k], bound); }
      DistinctInside(pr.grid, cells);
    }
  }

  /** A step costs at least ten and leads no further than one cell. */
  lemma {:induction false} CostSpan(w: seq<Cell>)
    requires |w| > 0 && forall i :: 0 < i < |w| ==> Adjacent(w[i - 1], w[i])
    ensures 10 * Abs(w[|w| - 1].x - w[0].x) <= Cost(w) && 10 * Abs(w[|w| - 1].y - w[0].y) <= Cost(w)
  {
    if |w| > 1 {
      assert Adjacent(w[1 - 1], w[1]);
      StepLength(w[0], w[1]);
      forall i | 0 < i < |w[1..]| ensures Adjacent(w[1..][i - 1], w[1..][i]) { assert Adjacent(w[i], w[i + 1]); }
      CostSpan(w[1..]);
    }
  }

  /** The side of a square around the start that holds the region. */
  function Side(bound: nat): nat { 2 * (bound / 10) + 3 }

  function Shifted(pr: Problem, b: Cell, bound: nat): Cell {
    Cell(b.x - pr.start.x + bound / 10 + 1, b.y - pr.start.y + bound / 10 + 1)
  }

  lemma RegionSquare(pr: Problem, b: Cell, bound: nat)
    requires pr.Valid() && InRegion(pr, b, bound)
    ensures Grid(Side(bound), Side(bound), []).Inside(Shifted(pr, b, bound))
  {
    hide Promising;
    if b != pr.start {
      var c :| Promising(pr, c, bound) && c != pr.end && Adjacent(c, b);
      PromisingSpan(pr, c, bound);
    }
  }

  lemma PromisingSpan(pr: Problem, c: Cell, bound: nat)
    requires pr.Valid() && Promising(pr, c, bound)
    ensures 10 * Abs(c.x - pr.start.x) <= bound && 10 * Abs(c.y - pr.start.y) <= bound
  {
    hide Passable;
    var w :| WalkTo(pr, w, c) && Cost(w) + Distance(c, pr.end) <= bound;
    CostSpan(w);
  }

  /** Room for a square around the start, as wide as a walk to the goal is long, is enough on any map. */
  lemma NearGoal(pr: Problem, depth: nat, bound: nat)
    requires pr.Valid() && depth >= Side(bound) * Side(bound)
    ensures Enough(pr, bound, depth)
  {
    hide InRegion, Shifted, Side;
    forall cells | Region(pr, cells, bound) ensures |cells| <= depth {
      var moved := seq(|cells|, k requires 0 <= k < |cells| => Shifted(pr, cells[k], bound));
      var square := Grid(Side(bound), Side(bound), []);
      forall k | 0 <= k < |cells| ensures square.Inside(moved[k]) { RegionSquare(pr, cells[k], bound); }
      forall a, b | 0 <= a < b < |cells| ensures moved[a] != moved[b] { ShiftedApart(pr, cells[a], cells[b], bound); }
      DistinctInside(square, moved);
    }
  }

  lemma ShiftedApart(pr: Problem, a: Cell, b: Cell, bound: nat)
    requires a != b
    ensures Shifted(pr, a, bound) != Shifted(pr, b, bound)
  {
  }
}
