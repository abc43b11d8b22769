/**
 The grid of `pathfinding.c`: passable cells, walks and their cost, and the heuristic.
 */
module AStarGrid {

  import opened Sets

  const BLOCK_WEIGHT := 255

  datatype Cell = Cell(x: int, y: int)

  /** `struct map` */
  datatype Grid = Grid(width: nat, height: nat, m: seq<nat>) {
    predicate Valid() { |m| == width * height }

    predicate Inside(c: Cell) { 0 <= c.x < width && 0 <= c.y < height }
  }

  lemma IndexInside(g: Grid, c: Cell)
    requires g.Valid() && g.Inside(c)
    ensures 0 <= c.y * g.width + c.x < |g.m|
  {
    RowBound(c.y, g.height, g.width);
  }

  /** `map_get`: cells outside the map are blocked. */
  function MapGet(g: Grid, c: Cell): nat
    requires g.Valid()
  {
    if !g.Inside(c) then BLOCK_WEIGHT
    else IndexInside(g, c); g.m[c.y * g.width + c.x]
  }

  /** The question put to `path_finding`. */
  datatype Problem = Problem(grid: Grid, start: Cell, end: Cell, bsize: int) {
    predicate Valid() { grid.Valid() && grid.Inside(start) && grid.Inside(end) }
  }

  /** One square of the body does not block: it is free, or it is the goal. */
  predicate Free(pr: Problem, c: Cell)
    requires pr.grid.Valid()
  {
    MapGet(pr.grid, c) == 0 || c == pr.end
  }

  /** The squares of a body of half-size `bsize` whose centre is at `c`. */
  predicate Covers(pr: Problem, c: Cell, d: Cell) {
    Abs(c.x - d.x) <= pr.bsize && Abs(c.y - d.y) <= pr.bsize
  }

  /** A body fits when its centre is at `c`. */
  ghost predicate Passable(pr: Problem, c: Cell)
    requires pr.grid.Valid()
  {
    forall d: Cell :: Covers(pr, c, d) ==> Free(pr, d)
  }

  /** A body of one square fits on the goal, blocked or not, and else exactly on the free squares of the map. */
  lemma PassableSquare(pr: Problem, c: Cell)
    requires pr.Valid() && pr.bsize == 0
    ensures Passable(pr, c) <==> c == pr.end || (pr.grid.Inside(c) && MapGet(pr.grid, c) == 0)
  {
    assert Covers(pr, c, c);
    assert forall d :: Covers(pr, c, d) ==> d == c;
  }

  lemma PassableInside(pr: Problem, c: Cell)
    requires pr.Valid() && pr.bsize >= 0 && Passable(pr, c)
    ensures pr.grid.Inside(c)
  {
    assert Covers(pr, c, c);
  }

  // ----- steps, walks, cost -----

  function Abs(x: int): nat { if x < 0 then -x else x }

  predicate Adjacent(a: Cell, b: Cell) { a != b && Abs(a.x - b.x) <= 1 && Abs(a.y - b.y) <= 1 }

  /** `distance`: seven for a diagonal unit, five for a straight one. */
  function Distance(a: Cell, b: Cell): nat { Octile(Abs(a.x - b.x), Abs(a.y - b.y)) }

  function Octile(dx: nat, dy: nat): nat {
    if dx < dy then dx * 7 + (dy - dx) * 5 else dy * 7 + (dx - dy) * 5
  }

  /** One unit of one coordinate. */
  lemma OctileUnit(dx: nat, dy: nat, ex: nat, ey: nat)
    requires dx <= ex + 1 && dy <= ey + 1
    ensures Octile(dx, dy) <= Octile(ex, ey) + 7
    ensures dx <= ex || dy <= ey ==> Octile(dx, dy) <= Octile(ex, ey) + 5
  {}

  lemma AbsUnit(a: int, b: int, e: int)
    requires Abs(a - b) <= 1
    ensures Abs(a - e) <= Abs(b - e) + 1
  {}

  /** What a step costs: twice its distance. */
  function StepCost(a: Cell, b: Cell): nat { 2 * Distance(a, b) }

  /** The heuristic drops along a step by at most half of the cost of the step. */
  lemma Consistent(a: Cell, b: Cell, end: Cell)
    requires Adjacent(a, b)
    ensures Distance(a, end) <= Distance(b, end) + Distance(a, b)
    ensures 0 < Distance(a, b)
  {
    StepLength(a, b);
    if a.x == b.x || a.y == b.y { StraightDrop(a, b, end); } else { DiagonalDrop(a, b, end); }
  }

  lemma StraightDrop(a: Cell, b: Cell, end: Cell)
    requires Adjacent(a, b) && (a.x == b.x || a.y == b.y)
    ensures Distance(a, end) <= Distance(b, end) + 5
  {
    AbsUnit(a.x, b.x, end.x);
    AbsUnit(a.y, b.y, end.y);
    OctileUnit(Abs(a.x - end.x), Abs(a.y - end.y), Abs(b.x - end.x), Abs(b.y - end.y));
  }

  lemma DiagonalDrop(a: Cell, b: Cell, end: Cell)
    requires Adjacent(a, b)
    ensures Distance(a, end) <= Distance(b, end) + 7
  {
    AbsUnit(a.x, b.x, end.x);
    AbsUnit(a.y, b.y, end.y);
    OctileUnit(Abs(a.x - end.x), Abs(a.y - end.y), Abs(b.x - end.x), Abs(b.y - end.y));
  }

  lemma StepLength(a: Cell, b: Cell)
    requires Adjacent(a, b)
    ensures Distance(a, b) == if a.x == b.x || a.y == b.y then 5 else 7
  {}

  /** A way through passable cells; only the first cell may be blocked. */
  ghost predicate Walk(pr: Problem, w: seq<Cell>)
    requires pr.grid.Valid()
  {
    && |w| > 0 && w[0] == pr.start
    && (forall i :: 0 < i < |w| ==> Adjacent(w[i - 1], w[i]))
    && (forall i :: 0 < i < |w| ==> Passable(pr, w[i]))
  }

  function Cost(w: seq<Cell>): nat {
    if |w| < 2 then 0 else StepCost(w[0], w[1]) + Cost(w[1..])
  }

  lemma {:induction false} CostSplit(w: seq<Cell>, i: nat)
    requires i < |w|
    ensures Cost(w) == Cost(w[..i + 1]) + Cost(w[i..])
  {
    if i == 0 {
      assert w[0..] == w;
    } else {
      CostSplit(w[1..], i - 1);
      assert w[1..][..i] == w[..i + 1][1..];
      assert w[1..][i - 1..] == w[i..];
      assert w[..i + 1][0] == w[0] && w[..i + 1][1] == w[1];
    }
  }

  lemma {:induction false} CostExtends(w: seq<Cell>, c: Cell)
    requires |w| > 0
    ensures Cost(w + [c]) == Cost(w) + StepCost(w[|w| - 1], c)
  {
    CostSplit(w + [c], |w| - 1);
    assert (w + [c])[..|w|] == w;
    var tail := (w + [c])[|w| - 1..];
    assert tail == [w[|w| - 1], c];
    assert Cost(tail[1..]) == 0;
  }

  /** Any way from one cell to another costs at least the drop of the heuristic. */
  lemma {:induction false} CostBelow(w: seq<Cell>, end: Cell)
    requires |w| > 0 && forall i :: 0 < i < |w| ==> Adjacent(w[i - 1], w[i])
    ensures Distance(w[0], end) <= Distance(w[|w| - 1], end) + Cost(w)
  {
    if |w| > 1 {
      assert Adjacent(w[1 - 1], w[1]);
      Consistent(w[0], w[1], end);
      forall i | 0 < i < |w[1..]| ensures Adjacent(w[1..][i - 1], w[1..][i]) { assert Adjacent(w[i], w[i + 1]); }
      CostBelow(w[1..], end);
    }
  }

  // ----- the table of neighbours -----

  /** `OFF` */
  const OFF: seq<(int, int, nat)> :=
    [(-1, 0, 5), (0, 1, 5), (1, 0, 5), (0, -1, 5), (1, 1, 7), (-1, 1, 7), (-1, -1, 7), (1, -1, 7)]

  function Neighbour(c: Cell, i: nat): Cell
    requires i < 8
  {
    Cell(c.x + OFF[i].0, c.y + OFF[i].1)
  }

  lemma NeighbourAdjacent(c: Cell, i: nat)
    requires i < 8
    ensures Adjacent(c, Neighbour(c, i)) && StepCost(c, Neighbour(c, i)) == OFF[i].2 + OFF[i].2
  {}

  /** The table holds every adjacent cell. */
  lemma NeighbourComplete(a: Cell, b: Cell) returns (i: nat)
    requires Adjacent(a, b)
    ensures i < 8 && Neighbour(a, i) == b
  {
    var dx, dy := b.x - a.x, b.y - a.y;
    i := if dx == -1 && dy == 0 then 0 else if dx == 0 && dy == 1 then 1 else if dx == 1 && dy == 0 then 2
         else if dx == 0 && dy == -1 then 3 else if dx == 1 && dy == 1 then 4 else if dx == -1 && dy == 1 then 5
         else if dx == -1 then 6 else 7;
  }

  // ----- counting cells -----

  /** A list of different cells of the map is no longer than the map is large. */
  lemma DistinctInside(g: Grid, cells: seq<Cell>)
    requires forall i :: 0 <= i < |cells| ==> g.Inside(cells[i])
    requires forall i, j :: 0 <= i < j < |cells| ==> cells[i] != cells[j]
    ensures |cells| <= g.width * g.height
  {
    KeysDistinct(g, cells, |cells|);
    SubsetSize(Keys(g, cells, |cells|), Below(g.width * g.height));
  }

  function Key(g: Grid, c: Cell): int { c.y * g.width + c.x }

  lemma KeyBound(g: Grid, c: Cell)
    requires g.Inside(c)
    ensures 0 <= Key(g, c) < g.width * g.height
  {
    RowBound(c.y, g.height, g.width);
  }

  lemma RowBound(y: int, h: nat, w: nat)
    requires 0 <= y < h
    ensures 0 <= y * w && y * w + w <= h * w
  {
    assert h * w == y * w + (h - y) * w;
    assert (h - y) * w == w + (h - y - 1) * w;
  }

  lemma KeyInjective(g: Grid, a: Cell, b: Cell)
    requires g.Inside(a) && g.Inside(b) && Key(g, a) == Key(g, b)
    ensures a == b
  {
    if a.y < b.y { RowBound(a.y, b.y, g.width); } else if b.y < a.y { RowBound(b.y, a.y, g.width); }
  }

  ghost function Keys(g: Grid, cells: seq<Cell>, n: nat): set<int>
    requires n <= |cells|
  {
    if n == 0 then {} else Keys(g, cells, n - 1) + {Key(g, cells[n - 1])}
  }

  lemma {:induction false} KeysDistinct(g: Grid, cells: seq<Cell>, n: nat)
    requires n <= |cells| && forall i :: 0 <= i < |cells| ==> g.Inside(cells[i])
    requires forall i, j :: 0 <= i < j < |cells| ==> cells[i] != cells[j]
    ensures |Keys(g, cells, n)| == n && Keys(g, cells, n) <= Below(g.width * g.height)
    ensures forall k :: k in Keys(g, cells, n) ==> exists i :: 0 <= i < n && k == Key(g, cells[i])
  {
    if n > 0 {
      KeysDistinct(g, cells, n - 1);
      KeyBound(g, cells[n - 1]);
      forall i | 0 <= i < n - 1 ensures Key(g, cells[i]) != Key(g, cells[n - 1]) {
        if Key(g, cells[i]) == Key(g, cells[n - 1]) { KeyInjective(g, cells[i], cells[n - 1]); }
      }
    }
  }

  ghost function Below(n: nat): (s: set<int>)
    ensures |s| == n && forall k :: k in s <==> 0 <= k < n
  {
    if n == 0 then {} else Below(n - 1) + {n - 1}
  }
}
