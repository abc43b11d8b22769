/**
 What the search of `pathfinding.c` keeps true: the nodes, the open set and the closed set, as values.
 */
module AStarSearch {

  import opened AStarGrid

  /** `struct pathnode` */
  datatype Node = Node(cell: Cell, camefrom: int, gscore: int, fscore: int)

  function Fscore(pr: Problem, c: Cell, g: int): int { g + Distance(c, pr.end) }

  ghost predicate InRange(n: nat, s: seq<int>) {
    forall j :: 0 <= j < |s| ==> 0 <= s[j] < n
  }

  /** Every node is in exactly one of the two sets. */
  ghost predicate Partition(n: nat, open: seq<int>, closed: seq<int>) {
    && |open| + |closed| == n
    && (forall k <- open :: 0 <= k < n && k !in closed)
    && (forall k <- closed :: 0 <= k < n)
    && (forall k :: 0 <= k < n ==> k in open || k in closed)
    && (forall a, b :: 0 <= a < b < |open| ==> open[a] != open[b])
  }

  ghost predicate Distinct(ns: seq<Node>) {
    forall i, j :: 0 <= i < j < |ns| ==> ns[i].cell != ns[j].cell
  }

  /** A node came from a closed node one step away, and its scores say so. */
  ghost predicate Linked(pr: Problem, ns: seq<Node>, closed: seq<int>, i: int)
    requires pr.Valid() && 0 <= i < |ns|
  {
    var v := ns[i];
    if i == 0 then v == Node(pr.start, -1, 0, Fscore(pr, pr.start, 0))
    else
      && 0 <= v.camefrom < |ns| && v.camefrom in closed
      && Adjacent(ns[v.camefrom].cell, v.cell)
      && Passable(pr, v.cell)
      && ns[v.camefrom].gscore >= 0
      && v.gscore == ns[v.camefrom].gscore + StepCost(ns[v.camefrom].cell, v.cell)
      && v.fscore == Fscore(pr, v.cell, v.gscore)
  }

  ghost predicate Links(pr: Problem, ns: seq<Node>, closed: seq<int>)
    requires pr.Valid()
  {
    |ns| > 0 && forall i :: 0 <= i < |ns| ==> Linked(pr, ns, closed, i)
  }

  /** The goal is never closed. */
  ghost predicate Outside(pr: Problem, ns: seq<Node>, closed: seq<int>) {
    forall k <- closed :: 0 <= k < |ns| ==> ns[k].cell != pr.end
  }

  ghost predicate Inv(pr: Problem, ns: seq<Node>, open: seq<int>, closed: seq<int>)
    requires pr.Valid()
  {
    Partition(|ns|, open, closed) && Distinct(ns) && Links(pr, ns, closed) && Outside(pr, ns, closed)
  }

  ghost predicate WalkTo(pr: Problem, w: seq<Cell>, c: Cell)
    requires pr.Valid()
  {
    Walk(pr, w) && w[|w| - 1] == c
  }

  /** No way to `c` costs less than `g`. */
  ghost predicate Cheapest(pr: Problem, c: Cell, g: int)
    requires pr.Valid()
  {
    forall w :: WalkTo(pr, w, c) ==> g <= Cost(w)
  }

  ghost predicate Optimal(pr: Problem, ns: seq<Node>, closed: seq<int>)
    requires pr.Valid()
  {
    forall k <- closed :: 0 <= k < |ns| ==> Cheapest(pr, ns[k].cell, ns[k].gscore)
  }

  /** Some node stands at `c` and costs at most `g`. */
  ghost predicate Reached(ns: seq<Node>, c: Cell, g: int) {
    exists j :: 0 <= j < |ns| && ns[j].cell == c && ns[j].gscore <= g
  }

  ghost predicate Handled(pr: Problem, ns: seq<Node>, v: Node, i: nat)
    requires pr.Valid() && i < 8
  {
    Passable(pr, Neighbour(v.cell, i)) ==> Reached(ns, Neighbour(v.cell, i), v.gscore + OFF[i].2 + OFF[i].2)
  }

  /** Closed nodes have handed their cost to all neighbours; `current` to the first `k` of them. */
  ghost predicate Expanded(pr: Problem, ns: seq<Node>, closed: seq<int>, current: int, k: nat)
    requires pr.Valid() && k <= 8
  {
    forall c <- closed, i: nat | 0 <= c < |ns| && i < (if c == current then k else 8) :: Handled(pr, ns, ns[c], i)
  }

  // ----- the path behind a node -----

  /** The way back along `camefrom`, turned round. */
  ghost function PathOf(pr: Problem, ns: seq<Node>, closed: seq<int>, i: int): (w: seq<Cell>)
    requires pr.Valid() && Links(pr, ns, closed) && 0 <= i < |ns|
    ensures |w| > 0
    decreases ns[i].gscore
  {
    assert Linked(pr, ns, closed, i);
    if ns[i].camefrom < 0 then [ns[i].cell]
    else PathStep(pr, ns, closed, i); PathOf(pr, ns, closed, ns[i].camefrom) + [ns[i].cell]
  }

  /** The scores grow strictly along a link. */
  lemma PathStep(pr: Problem, ns: seq<Node>, closed: seq<int>, i: int)
    requires pr.Valid() && Links(pr, ns, closed) && 0 <= i < |ns| && ns[i].camefrom >= 0
    ensures 0 <= ns[i].camefrom < |ns| && 0 < i
    ensures 0 <= ns[ns[i].camefrom].gscore < ns[i].gscore
    ensures ns[ns[i].camefrom].fscore < ns[i].fscore
  {
    assert Linked(pr, ns, closed, i);
    var p := ns[i].camefrom;
    assert Linked(pr, ns, closed, p);
    Consistent(ns[p].cell, ns[i].cell, pr.end);
  }

  /** Following the links gives a walk, and `gscore` is its cost. */
  lemma {:induction false} PathOfWalk(pr: Problem, ns: seq<Node>, closed: seq<int>, i: int)
    requires pr.Valid() && Links(pr, ns, closed) && 0 <= i < |ns|
    ensures WalkTo(pr, PathOf(pr, ns, closed, i), ns[i].cell)
    ensures Cost(PathOf(pr, ns, closed, i)) == ns[i].gscore
    decreases ns[i].gscore
  {
    assert Linked(pr, ns, closed, i);
    if ns[i].camefrom >= 0 {
      PathStep(pr, ns, closed, i);
      var p := ns[i].camefrom;
      PathOfWalk(pr, ns, closed, p);
      WalkExtends(pr, PathOf(pr, ns, closed, p), ns[i].cell);
    }
  }

  lemma WalkExtends(pr: Problem, w: seq<Cell>, c: Cell)
    requires pr.Valid() && Walk(pr, w) && Adjacent(w[|w| - 1], c) && Passable(pr, c)
    ensures WalkTo(pr, w + [c], c)
    ensures Cost(w + [c]) == Cost(w) + StepCost(w[|w| - 1], c)
  {
    CostExtends(w, c);
  }

  /** The start node has the lowest score of all. */
  lemma {:induction false} StartLowest(pr: Problem, ns: seq<Node>, closed: seq<int>, i: int)
    requires pr.Valid() && Links(pr, ns, closed) && 0 < i < |ns|
    ensures ns[0].fscore < ns[i].fscore
    decreases ns[i].gscore
  {
    assert Linked(pr, ns, closed, i);
    PathStep(pr, ns, closed, i);
    if ns[i].camefrom > 0 { StartLowest(pr, ns, closed, ns[i].camefrom); }
  }

  /** Some node at `c` costs at most `g`, under a name of its own for the cells of a path. */
  ghost predicate Visited(ns: seq<Node>, w: seq<Cell>, g: int) {
    forall a :: 0 <= a < |w| ==> Reached(ns, w[a], g)
  }

  ghost predicate NoRepeat(w: seq<Cell>) {
    forall a, b :: 0 <= a < b < |w| ==> w[a] != w[b]
  }

  /** A path visits no cell twice: the costs grow along it. */
  lemma {:induction false} PathOfDistinct(pr: Problem, ns: seq<Node>, closed: seq<int>, i: int)
    requires pr.Valid() && Links(pr, ns, closed) && Distinct(ns) && 0 <= i < |ns|
    ensures NoRepeat(PathOf(pr, ns, closed, i))
    ensures Visited(ns, PathOf(pr, ns, closed, i), ns[i].gscore)
    decreases ns[i].gscore
  {
    assert Linked(pr, ns, closed, i);
    assert Reached(ns, ns[i].cell, ns[i].gscore);
    if ns[i].camefrom >= 0 {
      PathStep(pr, ns, closed, i);
      PathOfDistinct(pr, ns, closed, ns[i].camefrom);
      var v := PathOf(pr, ns, closed, ns[i].camefrom);
      assert PathOf(pr, ns, closed, i) == v + [ns[i].cell];
      forall a | 0 <= a < |v| ensures v[a] != ns[i].cell && Reached(ns, v[a], ns[i].gscore) {
        assert Reached(ns, v[a], ns[ns[i].camefrom].gscore);
      }
      assert NoRepeat(v + [ns[i].cell]);
    }
  }

  // ----- optimality -----

  ghost predicate ClosedCell(ns: seq<Node>, closed: seq<int>, c: Cell) {
    exists k :: k in closed && 0 <= k < |ns| && ns[k].cell == c
  }

  /** The first cell of a walk that is not closed. */
  lemma {:induction false} FirstOpen(ns: seq<Node>, closed: seq<int>, w: seq<Cell>, i: nat) returns (j: nat)
    requires i < |w| && !ClosedCell(ns, closed, w[i])
    ensures j <= i && !ClosedCell(ns, closed, w[j])
    ensures j > 0 ==> ClosedCell(ns, closed, w[j - 1])
  {
    j := i;
    if i > 0 && !ClosedCell(ns, closed, w[i - 1]) { j := FirstOpen(ns, closed, w, i - 1); }
  }

  /** Every walk to a cell that is not closed passes an open node that costs no more than the walk so far. */
  lemma Frontier(pr: Problem, ns: seq<Node>, open: seq<int>, closed: seq<int>, w: seq<Cell>) returns (j: nat, m: int)
    requires pr.Valid() && Inv(pr, ns, open, closed) && Optimal(pr, ns, closed) && Expanded(pr, ns, closed, -1, 0)
    requires Walk(pr, w) && !ClosedCell(ns, closed, w[|w| - 1])
    ensures j < |w| && m in open && 0 <= m < |ns|
    ensures ns[m].cell == w[j] && ns[m].gscore <= Cost(w[..j + 1])
  {
    j := FirstOpen(ns, closed, w, |w| - 1);
    if j == 0 {
      m := 0;
      assert Linked(pr, ns, closed, 0);
    } else {
      var k :| k in closed && 0 <= k < |ns| && ns[k].cell == w[j - 1];
      m := Handed(pr, ns, closed, w, j, k);
    }
  }

  lemma Handed(pr: Problem, ns: seq<Node>, closed: seq<int>, w: seq<Cell>, j: nat, k: int) returns (m: int)
    requires pr.Valid() && Optimal(pr, ns, closed) && Expanded(pr, ns, closed, -1, 0)
    requires Walk(pr, w) && 0 < j < |w|
    requires k in closed && 0 <= k < |ns| && ns[k].cell == w[j - 1]
    ensures 0 <= m < |ns| && ns[m].cell == w[j] && ns[m].gscore <= Cost(w[..j + 1])
  {
    var i := NeighbourComplete(w[j - 1], w[j]);
    NeighbourAdjacent(w[j - 1], i);
    assert Handled(pr, ns, ns[k], i);
    assert WalkTo(pr, w[..j], w[j - 1]);
    CostExtends(w[..j], w[j]);
    assert w[..j] + [w[j]] == w[..j + 1];
    m :| 0 <= m < |ns| && ns[m].cell == w[j] && ns[m].gscore <= ns[k].gscore + OFF[i].2 + OFF[i].2;
  }

  lemma NotClosed(ns: seq<Node>, open: seq<int>, closed: seq<int>, m: int)
    requires Partition(|ns|, open, closed) && Distinct(ns) && m in open
    ensures 0 <= m < |ns| && !ClosedCell(ns, closed, ns[m].cell)
  {
  }

  /** A node with the lowest score is reached as cheaply as can be. */
  lemma PopOptimal(pr: Problem, ns: seq<Node>, open: seq<int>, closed: seq<int>, current: int)
    requires pr.Valid() && Inv(pr, ns, open, closed) && Optimal(pr, ns, closed) && Expanded(pr, ns, closed, -1, 0)
    requires current in open && forall m <- open :: 0 <= m < |ns| ==> ns[current].fscore <= ns[m].fscore
    ensures Cheapest(pr, ns[current].cell, ns[current].gscore)
  {
    NotClosed(ns, open, closed, current);
    assert Linked(pr, ns, closed, current);
    forall w | WalkTo(pr, w, ns[current].cell) ensures ns[current].gscore <= Cost(w) {
      var j, m := Frontier(pr, ns, open, closed, w);
      assert Linked(pr, ns, closed, m);
      CostSplit(w, j);
      Suffix(pr, w, j);
      assert ns[current].fscore <= ns[m].fscore;
    }
  }

  lemma Suffix(pr: Problem, w: seq<Cell>, j: nat)
    requires pr.Valid() && Walk(pr, w) && j < |w|
    ensures Distance(w[j], pr.end) <= Distance(w[|w| - 1], pr.end) + Cost(w[j..])
  {
    var t := w[j..];
    forall i | 0 < i < |t| ensures Adjacent(t[i - 1], t[i]) { assert Adjacent(w[j + i - 1], w[j + i]); }
    CostBelow(t, pr.end);
  }

  /** When the open set is empty no walk leads to the goal. */
  lemma EmptyMeansUnreachable(pr: Problem, ns: seq<Node>, closed: seq<int>, w: seq<Cell>)
    requires pr.Valid() && Inv(pr, ns, [], closed) && Optimal(pr, ns, closed) && Expanded(pr, ns, closed, -1, 0)
    ensures !WalkTo(pr, w, pr.end)
  {
    if WalkTo(pr, w, pr.end) {
      var j, m := Frontier(pr, ns, [], closed, w);
    }
  }

  // ----- the steps of the search keep the invariant -----

  /** Removal by moving the last entry into the gap. */
  function Removed(open: seq<int>, k: nat): seq<int>
    requires k < |open|
  {
    if k == |open| - 1 then open[..k] else open[..|open| - 1][k := open[|open| - 1]]
  }

  lemma RemovedMembers(open: seq<int>, k: nat)
    requires k < |open| && forall a, b :: 0 <= a < b < |open| ==> open[a] != open[b]
    ensures forall x :: x in Removed(open, k) <==> x in open && x != open[k]
    ensures forall a, b :: 0 <= a < b < |Removed(open, k)| ==> Removed(open, k)[a] != Removed(open, k)[b]
  {
    var r := Removed(open, k);
    forall x | x in open && x != open[k] ensures x in r {
      var a :| 0 <= a < |open| && open[a] == x;
      if a == |open| - 1 { assert r[k] == x; } else { assert r[a] == x; }
    }
  }

  lemma Closing(pr: Problem, ns: seq<Node>, open: seq<int>, closed: seq<int>, k: nat)
    requires pr.Valid() && Inv(pr, ns, open, closed) && k < |open|
    requires 0 <= open[k] < |ns| && ns[open[k]].cell != pr.end
    ensures Inv(pr, ns, Removed(open, k), [open[k]] + closed)
  {
    RemovedMembers(open, k);
    assert open[k] in open;
    forall i | 0 <= i < |ns| ensures Linked(pr, ns, [open[k]] + closed, i) {
      assert Linked(pr, ns, closed, i);
    }
  }

  lemma Begun(pr: Problem)
    requires pr.Valid()
    ensures var ns := [Node(pr.start, -1, 0, Fscore(pr, pr.start, 0))];
      Inv(pr, ns, [0], []) && Optimal(pr, ns, []) && Expanded(pr, ns, [], -1, 0)
  {
    assert Partition(1, [0], []);
  }

  lemma Popped(pr: Problem, ns: seq<Node>, closed: seq<int>, current: int)
    requires pr.Valid() && Optimal(pr, ns, closed) && Expanded(pr, ns, closed, -1, 0) && 0 <= current < |ns|
    requires Cheapest(pr, ns[current].cell, ns[current].gscore)
    ensures Optimal(pr, ns, [current] + closed) && Expanded(pr, ns, [current] + closed, current, 0)
  {
    forall c <- [current] + closed, i: nat | 0 <= c < |ns| && i < (if c == current then 0 else 8) ensures Handled(pr, ns, ns[c], i) {
      assert c in closed;
    }
  }

  lemma NewCell(ns: seq<Node>, open: seq<int>, closed: seq<int>, c: Cell)
    requires Partition(|ns|, open, closed) && !ClosedCell(ns, closed, c) && !At(ns, open, c)
    ensures forall k :: 0 <= k < |ns| ==> ns[k].cell != c
  {
  }

  /** A closed neighbour needs no new node: it is cheapest already. */
  lemma SkipClosed(pr: Problem, ns: seq<Node>, closed: seq<int>, current: int, i: nat)
    requires pr.Valid() && Links(pr, ns, closed) && Optimal(pr, ns, closed) && i < 8 && 0 <= current < |ns|
    requires ClosedCell(ns, closed, Neighbour(ns[current].cell, i))
    ensures Handled(pr, ns, ns[current], i)
  {
    var b := Neighbour(ns[current].cell, i);
    NeighbourAdjacent(ns[current].cell, i);
    if Passable(pr, b) {
      var k :| k in closed && 0 <= k < |ns| && ns[k].cell == b;
      var w := PathOf(pr, ns, closed, current);
      PathOfWalk(pr, ns, closed, current);
      WalkExtends(pr, w, b);
      assert Cheapest(pr, ns[k].cell, ns[k].gscore);
    }
  }

  lemma ExpandedNext(pr: Problem, ns: seq<Node>, closed: seq<int>, current: int, i: nat)
    requires pr.Valid() && i < 8 && 0 <= current < |ns|
    requires Expanded(pr, ns, closed, current, i) && Handled(pr, ns, ns[current], i)
    ensures Expanded(pr, ns, closed, current, i + 1)
  {
  }

  /** Nodes at the same cells with no greater cost carry the same promises. */
  ghost predicate Improves(ns: seq<Node>, ms: seq<Node>, closed: seq<int>) {
    && |ns| <= |ms|
    && (forall k :: 0 <= k < |ns| ==> ns[k].cell == ms[k].cell && ms[k].gscore <= ns[k].gscore)
    && (forall k <- closed :: 0 <= k < |ns| && ms[k] == ns[k])
  }

  lemma ImprovesKeeps(pr: Problem, ns: seq<Node>, ms: seq<Node>, closed: seq<int>, current: int, i: nat)
    requires pr.Valid() && i <= 8 && Improves(ns, ms, closed)
    ensures Optimal(pr, ns, closed) ==> Optimal(pr, ms, closed)
    ensures Expanded(pr, ns, closed, current, i) ==> Expanded(pr, ms, closed, current, i)
  {
    if Expanded(pr, ns, closed, current, i) {
      forall c <- closed, h: nat | 0 <= c < |ms| && h < (if c == current then i else 8) ensures Handled(pr, ms, ms[c], h) {
        assert Handled(pr, ns, ns[c], h);
        var b, g := Neighbour(ns[c].cell, h), ns[c].gscore + OFF[h].2 + OFF[h].2;
        if Passable(pr, b) {
          var j :| 0 <= j < |ns| && ns[j].cell == b && ns[j].gscore <= g;
          assert ms[j].cell == b && ms[j].gscore <= g;
        }
      }
    }
  }

  function Fresh(pr: Problem, ns: seq<Node>, current: int, i: nat): Node
    requires 0 <= current < |ns| && i < 8
  {
    var b := Neighbour(ns[current].cell, i);
    var g := ns[current].gscore + OFF[i].2 + OFF[i].2;
    Node(b, current, g, Fscore(pr, b, g))
  }

  lemma FreshLinked(pr: Problem, ns: seq<Node>, closed: seq<int>, current: int, i: nat, ms: seq<Node>, m: int)
    requires pr.Valid() && Links(pr, ns, closed) && i < 8 && 0 <= current < |ns| && current in closed
    requires Improves(ns, ms, closed) && 0 < m < |ms| && ms[m] == Fresh(pr, ns, current, i)
    requires Passable(pr, Neighbour(ns[current].cell, i))
    ensures Linked(pr, ms, closed, m) && Handled(pr, ms, ms[current], i)
  {
    NeighbourAdjacent(ns[current].cell, i);
    assert Linked(pr, ns, closed, current);
    assert ms[m].cell == Neighbour(ms[current].cell, i);
  }

  /** `add_open` of a neighbour */
  lemma Adding(pr: Problem, ns: seq<Node>, open: seq<int>, closed: seq<int>, current: int, i: nat)
    requires pr.Valid() && Inv(pr, ns, open, closed) && i < 8 && current in closed
    requires Passable(pr, Neighbour(ns[current].cell, i))
    requires forall k :: 0 <= k < |ns| ==> ns[k].cell != Neighbour(ns[current].cell, i)
    ensures var ms := ns + [Fresh(pr, ns, current, i)];
      Inv(pr, ms, open + [|ns|], closed) && Improves(ns, ms, closed) && Handled(pr, ms, ms[current], i)
  {
    var ms := ns + [Fresh(pr, ns, current, i)];
    forall j | 0 <= j < |ns| ensures Linked(pr, ms, closed, j) { assert Linked(pr, ns, closed, j); }
    FreshLinked(pr, ns, closed, current, i, ms, |ns|);
    assert Partition(|ms|, open + [|ns|], closed);
  }

  /** A cheaper way to an open node; no other node came from it. */
  lemma Lowering(pr: Problem, ns: seq<Node>, open: seq<int>, closed: seq<int>, current: int, i: nat, m: int)
    requires pr.Valid() && Inv(pr, ns, open, closed) && i < 8 && current in closed && m in open
    requires Passable(pr, Neighbour(ns[current].cell, i)) && ns[m].cell == Neighbour(ns[current].cell, i)
    requires ns[current].gscore + OFF[i].2 + OFF[i].2 < ns[m].gscore
    ensures var ms := ns[m := Fresh(pr, ns, current, i)];
      Inv(pr, ms, open, closed) && Improves(ns, ms, closed) && Handled(pr, ms, ms[current], i)
  {
    var ms := ns[m := Fresh(pr, ns, current, i)];
    assert Linked(pr, ns, closed, 0) && Linked(pr, ns, closed, current);
    FreshLinked(pr, ns, closed, current, i, ms, m);
    forall j | 0 <= j < |ns| && j != m ensures Linked(pr, ms, closed, j) { assert Linked(pr, ns, closed, j); }
  }

  /** The invariant, and every promise of the closed nodes. */
  ghost predicate Complete(pr: Problem, ns: seq<Node>, open: seq<int>, closed: seq<int>, current: int, k: nat)
    requires pr.Valid() && k <= 8
  {
    Inv(pr, ns, open, closed) && Optimal(pr, ns, closed) && Expanded(pr, ns, closed, current, k)
  }

  lemma Ranges(pr: Problem, ns: seq<Node>, open: seq<int>, closed: seq<int>)
    requires pr.Valid() && Inv(pr, ns, open, closed)
    ensures InRange(|ns|, open) && InRange(|ns|, closed) && |open| + |closed| == |ns|
    ensures forall k :: k in closed ==> 0 <= k < |ns|
  {
    forall j | 0 <= j < |open| ensures 0 <= open[j] < |ns| { assert open[j] in open; }
    forall j | 0 <= j < |closed| ensures 0 <= closed[j] < |ns| { assert closed[j] in closed; }
  }

  /** `open[at]` has the lowest score of the open nodes. */
  ghost predicate Lowest(ns: seq<Node>, open: seq<int>, at: nat) {
    && at < |open| && InRange(|ns|, open)
    && forall j :: 0 <= j < |open| ==> ns[open[at]].fscore <= ns[open[j]].fscore
  }

  /** Taking the lowest node out of the open set: the goal is reached at least cost, any other node is closed. */
  lemma PopKeeps(pr: Problem, ns: seq<Node>, open: seq<int>, closed: seq<int>, at: nat)
    requires pr.Valid() && Inv(pr, ns, open, closed) && Lowest(ns, open, at)
    ensures Complete(pr, ns, open, closed, -1, 0) ==> Cheapest(pr, ns[open[at]].cell, ns[open[at]].gscore)
    ensures ns[open[at]].cell != pr.end ==>
      && Inv(pr, ns, Removed(open, at), [open[at]] + closed)
      && (Complete(pr, ns, open, closed, -1, 0) ==> Complete(pr, ns, Removed(open, at), [open[at]] + closed, open[at], 0))
  {
    var current := open[at];
    if ns[current].cell != pr.end { Closing(pr, ns, open, closed, at); }
    if Complete(pr, ns, open, closed, -1, 0) {
      assert forall m <- open :: 0 <= m < |ns| ==> ns[current].fscore <= ns[m].fscore;
      PopOptimal(pr, ns, open, closed, current);
      Popped(pr, ns, closed, current);
    }
  }

  lemma ExpandedAll(pr: Problem, ns: seq<Node>, open: seq<int>, closed: seq<int>, current: int)
    requires pr.Valid() && Complete(pr, ns, open, closed, current, 8)
    ensures Complete(pr, ns, open, closed, -1, 0)
  {
  }

  /** What a turn of the loop over the neighbours does to the nodes and the open set. */
  ghost predicate Turn(pr: Problem, ns: seq<Node>, open: seq<int>, closed: seq<int>, current: int, i: nat, ms: seq<Node>, open': seq<int>)
    requires pr.Valid() && 0 <= current < |ns| && i < 8
  {
    var b := Neighbour(ns[current].cell, i);
    if ClosedCell(ns, closed, b) || !Passable(pr, b) then ms == ns && open' == open
    else if At(ns, open, b) then open' == open && TurnOpen(pr, ns, open, current, i, ms)
    else ms == ns + [Fresh(pr, ns, current, i)] && open' == open + [|ns|]
  }

  ghost predicate At(ns: seq<Node>, open: seq<int>, c: Cell) {
    exists m :: m in open && 0 <= m < |ns| && ns[m].cell == c
  }

  ghost predicate TurnOpen(pr: Problem, ns: seq<Node>, open: seq<int>, current: int, i: nat, ms: seq<Node>)
    requires 0 <= current < |ns| && i < 8
  {
    exists m :: m in open && 0 <= m < |ns| && ns[m].cell == Neighbour(ns[current].cell, i)
      && ms == if Fresh(pr, ns, current, i).gscore < ns[m].gscore then ns[m := Fresh(pr, ns, current, i)] else ns
  }

  /** Every turn keeps the invariant, and adds to the promises. */
  lemma TurnKeeps(pr: Problem, ns: seq<Node>, open: seq<int>, closed: seq<int>, current: int, i: nat, ms: seq<Node>, open': seq<int>)
    requires pr.Valid() && Inv(pr, ns, open, closed) && i < 8 && current in closed
    requires Turn(pr, ns, open, closed, current, i, ms, open')
    ensures Inv(pr, ms, open', closed)
    ensures Complete(pr, ns, open, closed, current, i) ==> Complete(pr, ms, open', closed, current, i + 1)
  {
    var b := Neighbour(ns[current].cell, i);
    if ClosedCell(ns, closed, b) {
      if Optimal(pr, ns, closed) { SkipClosed(pr, ns, closed, current, i); }
    } else if !Passable(pr, b) {
      assert Handled(pr, ns, ns[current], i);
    } else if At(ns, open, b) {
      var m :| m in open && 0 <= m < |ns| && ns[m].cell == b
        && ms == if Fresh(pr, ns, current, i).gscore < ns[m].gscore then ns[m := Fresh(pr, ns, current, i)] else ns;
      if Fresh(pr, ns, current, i).gscore < ns[m].gscore { Lowering(pr, ns, open, closed, current, i, m); }
      assert Reached(ms, b, ns[current].gscore + OFF[i].2 + OFF[i].2);
    } else {
      NewCell(ns, open, closed, b);
      Adding(pr, ns, open, closed, current, i);
    }
    ImprovesKeeps(pr, ns, ms, closed, current, i);
    if Complete(pr, ns, open, closed, current, i) { ExpandedNext(pr, ms, closed, current, i); }
  }
}
