/**
 * StarRunner's maze: a grid of cells, each with four wall flags and a
 * visited flag, carved by a recursive backtracker that runs on an explicit
 * stack. The grid is `cells[y][x]`; the cell objects of the script also hold
 * their own `x` and `y`, which always equal their position, so a cell is
 * named here by its `Coord`. `Math.random` enters as the oracle `draw`.
 */
module Maze {
  import opened Wrappers

  /** `CONFIG.CELL_SIZE`: the side of a cell in world units. */
  const CellSize: nat := 4

  datatype Walls = Walls(north: bool, south: bool, east: bool, west: bool)

  const AllWalls := Walls(true, true, true, true)

  datatype Cell = Cell(visited: bool, walls: Walls)

  /** The `{ x, y }` objects the generator hands out. */
  datatype Coord = Coord(x: nat, y: nat)

  datatype Side = North | South | East | West

  type Grid = seq<seq<Cell>>

  predicate InGrid(c: Coord, w: nat, h: nat)
  {
    c.x < w && c.y < h
  }

  /** The first `h` rows exist and hold `w` cells each. */
  predicate Shaped(g: Grid, w: nat, h: nat)
  {
    |g| >= h && forall y :: 0 <= y < h ==> |g[y]| == w
  }

  function At(g: Grid, w: nat, h: nat, c: Coord): Cell
    requires Shaped(g, w, h) && InGrid(c, w, h)
  {
    g[c.y][c.x]
  }

  predicate Adjacent(a: Coord, b: Coord)
  {
    (a.x == b.x && (a.y + 1 == b.y || b.y + 1 == a.y)) ||
    (a.y == b.y && (a.x + 1 == b.x || b.x + 1 == a.x))
  }

  function HasWall(ws: Walls, s: Side): bool
  {
    match s
    case North => ws.north
    case South => ws.south
    case East => ws.east
    case West => ws.west
  }

  function Opposite(s: Side): Side
  {
    match s
    case North => South
    case South => North
    case East => West
    case West => East
  }

  /** The side of `a` that faces the adjacent cell `b`. */
  function Facing(a: Coord, b: Coord): Side
  {
    if b.x == a.x + 1 then East
    else if a.x == b.x + 1 then West
    else if b.y == a.y + 1 then South
    else North
  }

  /** Every wall that is down in `a` is down in `b`. */
  predicate Fewer(a: Walls, b: Walls)
  {
    (!a.north ==> !b.north) && (!a.south ==> !b.south) && (!a.east ==> !b.east) && (!a.west ==> !b.west)
  }

  /** The passage between the adjacent cells `a` and `b` is open from both sides. */
  predicate OpenBetween(g: Grid, w: nat, h: nat, a: Coord, b: Coord)
  {
    && Shaped(g, w, h) && InGrid(a, w, h) && InGrid(b, w, h)
    && !HasWall(At(g, w, h, a).walls, Facing(a, b))
    && !HasWall(At(g, w, h, b).walls, Facing(b, a))
  }

  /** Each inner wall is seen the same from both of its cells. */
  predicate Symmetric(g: Grid, w: nat, h: nat)
    requires Shaped(g, w, h)
  {
    && (forall y, x {:trigger g[y][x].walls.east} :: 0 <= y < h && 0 <= x && x + 1 < w ==> g[y][x].walls.east == g[y][x + 1].walls.west)
    && (forall y, x {:trigger g[y][x].walls.south} :: 0 <= y && y + 1 < h && 0 <= x < w ==> g[y][x].walls.south == g[y + 1][x].walls.north)
  }

  /** The outer wall of the maze is intact. */
  predicate OuterClosed(g: Grid, w: nat, h: nat)
    requires Shaped(g, w, h)
  {
    && (forall x :: 0 <= x < w && h > 0 ==> g[0][x].walls.north && g[h - 1][x].walls.south)
    && (forall y :: 0 <= y < h && w > 0 ==> g[y][0].walls.west && g[y][w - 1].walls.east)
  }

  /** Each of the up to four in-grid neighbours of `c` has been visited. */
  predicate AllNeighboursVisited(g: Grid, w: nat, h: nat, c: Coord)
    requires Shaped(g, w, h) && InGrid(c, w, h)
  {
    && (c.y > 0 ==> g[c.y - 1][c.x].visited)
    && (c.y + 1 < h ==> g[c.y + 1][c.x].visited)
    && (c.x + 1 < w ==> g[c.y][c.x + 1].visited)
    && (c.x > 0 ==> g[c.y][c.x - 1].visited)
  }

  /** One row of fresh cells: not visited, all four walls standing. */
  function FreshRow(w: nat): seq<Cell>
  {
    seq(w, _ => Cell(false, AllWalls))
  }

  /** The first loop of `generate`: `h` fresh rows of `w` cells. */
  function Fresh(w: nat, h: nat): Grid
  {
    seq(h, _ => FreshRow(w))
  }

  /** The grid with cell `c` replaced by `cell`. */
  function Edit(g: Grid, w: nat, h: nat, c: Coord, cell: Cell): (r: Grid)
    requires Shaped(g, w, h) && InGrid(c, w, h)
    ensures Shaped(r, w, h)
  {
    g[c.y := g[c.y][c.x := cell]]
  }

  /** The grid after `next.visited = true`. */
  function Visit(g: Grid, w: nat, h: nat, c: Coord): Grid
    requires Shaped(g, w, h) && InGrid(c, w, h)
  {
    Edit(g, w, h, c, At(g, w, h, c).(visited := true))
  }

  /**
   * `getUnvisitedNeighbors(cell)`: the in-grid, unvisited neighbours of `c`,
   * north first, then south, east and west.
   */
  function UnvisitedNeighbors(g: Grid, w: nat, h: nat, c: Coord): seq<Coord>
    requires Shaped(g, w, h) && InGrid(c, w, h)
  {
    var north := if c.y > 0 && !g[c.y - 1][c.x].visited then [Coord(c.x, c.y - 1)] else [];
    var south := if c.y < h - 1 && !g[c.y + 1][c.x].visited then [Coord(c.x, c.y + 1)] else [];
    var east := if c.x < w - 1 && !g[c.y][c.x + 1].visited then [Coord(c.x + 1, c.y)] else [];
    var west := if c.x > 0 && !g[c.y][c.x - 1].visited then [Coord(c.x - 1, c.y)] else [];
    north + south + east + west
  }

  /** Where a neighbour of `c` comes in the north, south, east, west order. */
  function Rank(c: Coord, n: Coord): nat
  {
    match Facing(c, n)
    case North => 0
    case South => 1
    case East => 2
    case West => 3
  }

  /**
   * `getUnvisitedNeighbors` lists exactly the in-grid, adjacent, unvisited
   * cells, each once, in north, south, east, west order; it is empty exactly
   * when every neighbour has been visited.
   */
  lemma UnvisitedNeighborsSpec(g: Grid, w: nat, h: nat, c: Coord)
    requires Shaped(g, w, h) && InGrid(c, w, h)
    ensures var r := UnvisitedNeighbors(g, w, h, c);
      && |r| <= 4
      && (forall n :: n in r <==> InGrid(n, w, h) && Adjacent(c, n) && !At(g, w, h, n).visited)
      && RankOrdered(c, r)
      && (r == [] <==> AllNeighboursVisited(g, w, h, c))
  {
    NeighborsMembers(g, w, h, c);
    NeighborsOrdered(g, w, h, c);
  }

  lemma NeighborsMembers(g: Grid, w: nat, h: nat, c: Coord)
    requires Shaped(g, w, h) && InGrid(c, w, h)
    ensures forall n :: n in UnvisitedNeighbors(g, w, h, c) <==> InGrid(n, w, h) && Adjacent(c, n) && !At(g, w, h, n).visited
  {
    var north := if c.y > 0 && !g[c.y - 1][c.x].visited then [Coord(c.x, c.y - 1)] else [];
    var south := if c.y < h - 1 && !g[c.y + 1][c.x].visited then [Coord(c.x, c.y + 1)] else [];
    var east := if c.x < w - 1 && !g[c.y][c.x + 1].visited then [Coord(c.x + 1, c.y)] else [];
    var west := if c.x > 0 && !g[c.y][c.x - 1].visited then [Coord(c.x - 1, c.y)] else [];
    assert UnvisitedNeighbors(g, w, h, c) == north + south + east + west;
    forall n
      ensures n in north + south + east + west <==> InGrid(n, w, h) && Adjacent(c, n) && !At(g, w, h, n).visited
    {
      assert n in north + south + east + west <==> n in north || n in south || n in east || n in west;
    }
  }

  lemma NeighborsOrdered(g: Grid, w: nat, h: nat, c: Coord)
    requires Shaped(g, w, h) && InGrid(c, w, h)
    ensures RankOrdered(c, UnvisitedNeighbors(g, w, h, c))
  {
    var north := if c.y > 0 && !g[c.y - 1][c.x].visited then [Coord(c.x, c.y - 1)] else [];
    var south := if c.y < h - 1 && !g[c.y + 1][c.x].visited then [Coord(c.x, c.y + 1)] else [];
    var east := if c.x < w - 1 && !g[c.y][c.x + 1].visited then [Coord(c.x + 1, c.y)] else [];
    var west := if c.x > 0 && !g[c.y][c.x - 1].visited then [Coord(c.x - 1, c.y)] else [];
    assert UnvisitedNeighbors(g, w, h, c) == north + south + east + west;
    if c.y > 0 {
      assert Rank(c, Coord(c.x, c.y - 1)) == 0;
    }
    assert Rank(c, Coord(c.x, c.y + 1)) == 1;
    assert Rank(c, Coord(c.x + 1, c.y)) == 2;
    if c.x > 0 {
      assert Rank(c, Coord(c.x - 1, c.y)) == 3;
    }
    RankAppend(c, [], north, 0);
    RankAppend(c, north, south, 1);
    RankAppend(c, north + south, east, 2);
    RankAppend(c, north + south + east, west, 3);
  }

  /** The cells of `s` come in strictly increasing `Rank` around `c`. */
  ghost predicate RankOrdered(c: Coord, s: seq<Coord>)
  {
    forall i, j :: 0 <= i < j < |s| ==> Rank(c, s[i]) < Rank(c, s[j])
  }

  /** Appending at most one cell of rank `k` to cells of rank below `k` keeps the order. */
  lemma RankAppend(c: Coord, a: seq<Coord>, b: seq<Coord>, k: nat)
    requires RankOrdered(c, a) && (forall x :: x in a ==> Rank(c, x) < k)
    requires |b| <= 1 && (forall y :: y in b ==> Rank(c, y) == k)
    ensures RankOrdered(c, a + b) && (forall x :: x in a + b ==> Rank(c, x) < k + 1)
  {
    forall i, j | 0 <= i < j < |a + b|
      ensures Rank(c, (a + b)[i]) < Rank(c, (a + b)[j])
    {
      assert j >= |a| ==> (a + b)[j] == b[0] && i < |a|;
      assert (a + b)[i] in a + b && (a + b)[j] in a + b;
      if j < |a| {
        assert (a + b)[i] == a[i] && (a + b)[j] == a[j];
      } else {
        assert (a + b)[i] == a[i] && a[i] in a;
      }
    }
  }

  /** A neighbour `generate` picks is an adjacent, unvisited cell of the grid. */
  lemma NeighborPicked(g: Grid, w: nat, h: nat, c: Coord, n: Coord)
    requires Shaped(g, w, h) && InGrid(c, w, h)
    requires n in UnvisitedNeighbors(g, w, h, c)
    ensures InGrid(n, w, h) && Adjacent(c, n) && !At(g, w, h, n).visited
  {
    UnvisitedNeighborsSpec(g, w, h, c);
  }

  /** A cell with no unvisited neighbour left is popped. */
  lemma NoNeighborLeft(g: Grid, w: nat, h: nat, c: Coord)
    requires Shaped(g, w, h) && InGrid(c, w, h)
    requires UnvisitedNeighbors(g, w, h, c) == []
    ensures AllNeighboursVisited(g, w, h, c)
  {
    UnvisitedNeighborsSpec(g, w, h, c);
  }

  /**
   * `removeWall(current, next)`: by the sign of `next.x - current.x`, then
   * of `next.y - current.y`, the facing walls of both cells come down.
   */
  function WallRemoved(g: Grid, w: nat, h: nat, current: Coord, next: Coord): (r: Grid)
    requires Shaped(g, w, h) && InGrid(current, w, h) && InGrid(next, w, h)
    ensures Shaped(r, w, h)
  {
    seq(|g|, (y: int) requires 0 <= y < |g| =>
      seq(|g[y]|, (x: int) requires 0 <= x < |g[y]| => CellAfterRemove(g[y][x], Coord(x, y), current, next)))
  }

  /** The cell at `at` once `removeWall(current, next)` has run. */
  function CellAfterRemove(cell: Cell, at: Coord, current: Coord, next: Coord): Cell
  {
    var dx := next.x - current.x;
    var dy := next.y - current.y;
    if dx == 1 then
      (if at == current then cell.(walls := cell.walls.(east := false))
       else if at == next then cell.(walls := cell.walls.(west := false)) else cell)
    else if dx == -1 then
      (if at == current then cell.(walls := cell.walls.(west := false))
       else if at == next then cell.(walls := cell.walls.(east := false)) else cell)
    else if dy == 1 then
      (if at == current then cell.(walls := cell.walls.(south := false))
       else if at == next then cell.(walls := cell.walls.(north := false)) else cell)
    else if dy == -1 then
      (if at == current then cell.(walls := cell.walls.(north := false))
       else if at == next then cell.(walls := cell.walls.(south := false)) else cell)
    else cell
  }

  /** Writing `c` at `current`, then `n` at `next`, is `removeWall`'s update when those are its two new cells. */
  lemma TwoEdits(g: Grid, w: nat, h: nat, current: Coord, next: Coord, c: Cell, n: Cell)
    requires Shaped(g, w, h) && InGrid(current, w, h) && InGrid(next, w, h) && current != next
    requires c == CellAfterRemove(g[current.y][current.x], current, current, next)
    requires n == CellAfterRemove(g[next.y][next.x], next, current, next)
    ensures var g1 := g[current.y := g[current.y][current.x := c]];
      g1[next.y := g1[next.y][next.x := n]] == WallRemoved(g, w, h, current, next)
  {
    var g1 := g[current.y := g[current.y][current.x := c]];
    var g2 := g1[next.y := g1[next.y][next.x := n]];
    var r: Grid := WallRemoved(g, w, h, current, next);
    forall y, x | 0 <= y < |g2| && 0 <= x < |g2[y]|
      ensures g2[y][x] == r[y][x]
    {
      assert r[y][x] == CellAfterRemove(g[y][x], Coord(x, y), current, next);
    }
    SameGrid(g2, r);
  }

  /** Two grids with the same rows, cell by cell, are equal. */
  lemma SameGrid(a: Grid, b: Grid)
    requires |a| == |b| && forall y :: 0 <= y < |a| ==> |a[y]| == |b[y]|
    requires forall y, x :: 0 <= y < |a| && 0 <= x < |a[y]| ==> a[y][x] == b[y][x]
    ensures a == b
  {
    forall y | 0 <= y < |a|
      ensures a[y] == b[y]
    {
    }
  }

  /** `b` is the neighbour of `a` on side `s`. */
  predicate Across(a: Coord, b: Coord, s: Side)
  {
    match s
    case North => b.x == a.x && b.y + 1 == a.y
    case South => b.x == a.x && b.y == a.y + 1
    case East => b.y == a.y && b.x == a.x + 1
    case West => b.y == a.y && b.x + 1 == a.x
  }

  /**
   * One cell under `removeWall` on adjacent cells: its visited flag stays,
   * and a wall of it comes down exactly when the cell is `current` and
   * `next` lies across that wall, or the cell is `next` and `current` does.
   */
  lemma CellAfterRemoveSide(cell: Cell, at: Coord, current: Coord, next: Coord, s: Side)
    requires Adjacent(current, next)
    ensures CellAfterRemove(cell, at, current, next).visited == cell.visited
    ensures HasWall(CellAfterRemove(cell, at, current, next).walls, s) ==
      (HasWall(cell.walls, s) && !((at == current && Across(current, next, s)) || (at == next && Across(next, current, s))))
  {
  }

  /** The cell at (x, y) after `removeWall`. */
  lemma WallRemovedAt(g: Grid, w: nat, h: nat, current: Coord, next: Coord, x: nat, y: nat)
    requires Shaped(g, w, h) && InGrid(current, w, h) && InGrid(next, w, h) && x < w && y < h
    ensures WallRemoved(g, w, h, current, next)[y][x] == CellAfterRemove(g[y][x], Coord(x, y), current, next)
  {
  }

  /**
   * For adjacent cells, `removeWall` takes down the wall of `current` facing
   * `next` and the opposite wall of `next`, and changes nothing else: every
   * visited flag stays, and every other wall of every cell stays.
   */
  lemma WallRemovedEffect(g: Grid, w: nat, h: nat, current: Coord, next: Coord)
    requires Shaped(g, w, h) && InGrid(current, w, h) && InGrid(next, w, h)
    requires Adjacent(current, next)
    ensures var r := WallRemoved(g, w, h, current, next);
      forall y: nat, x: nat, s: Side :: y < h && x < w ==>
        && r[y][x].visited == g[y][x].visited
        && HasWall(r[y][x].walls, s) ==
           (HasWall(g[y][x].walls, s) && !((Coord(x, y) == current && Across(current, next, s)) || (Coord(x, y) == next && Across(next, current, s))))
  {
    forall y: nat, x: nat, s: Side | y < h && x < w
      ensures var r := WallRemoved(g, w, h, current, next);
        && r[y][x].visited == g[y][x].visited
        && HasWall(r[y][x].walls, s) ==
           (HasWall(g[y][x].walls, s) && !((Coord(x, y) == current && Across(current, next, s)) || (Coord(x, y) == next && Across(next, current, s))))
    {
      WallRemovedAt(g, w, h, current, next, x, y);
      CellAfterRemoveSide(g[y][x], Coord(x, y), current, next, s);
    }
  }

  /** The two walls `removeWall` takes down face each other. */
  lemma FacingAcross(a: Coord, b: Coord)
    requires Adjacent(a, b)
    ensures Across(a, b, Facing(a, b)) && Across(b, a, Facing(b, a)) && Facing(b, a) == Opposite(Facing(a, b))
  {
  }

  /** `removeWall` on adjacent cells keeps the walls symmetric and the outer wall closed. */
  lemma WallRemovedSymmetric(g: Grid, w: nat, h: nat, current: Coord, next: Coord)
    requires Shaped(g, w, h) && InGrid(current, w, h) && InGrid(next, w, h)
    requires Adjacent(current, next)
    requires Symmetric(g, w, h) && OuterClosed(g, w, h)
    ensures Symmetric(WallRemoved(g, w, h, current, next), w, h)
    ensures OuterClosed(WallRemoved(g, w, h, current, next), w, h)
  {
    WallRemovedPairs(g, w, h, current, next);
    WallRemovedOuter(g, w, h, current, next);
  }

  lemma WallRemovedPairs(g: Grid, w: nat, h: nat, current: Coord, next: Coord)
    requires Shaped(g, w, h) && InGrid(current, w, h) && InGrid(next, w, h)
    requires Adjacent(current, next) && Symmetric(g, w, h)
    ensures Symmetric(WallRemoved(g, w, h, current, next), w, h)
  {
    var r: Grid := WallRemoved(g, w, h, current, next);
    forall y: nat, x: nat | y < h && x + 1 < w
      ensures r[y][x].walls.east == r[y][x + 1].walls.west
    {
      WallRemovedEastWest(g, w, h, current, next, x, y);
    }
    forall y: nat, x: nat | y + 1 < h && x < w
      ensures r[y][x].walls.south == r[y + 1][x].walls.north
    {
      WallRemovedSouthNorth(g, w, h, current, next, x, y);
    }
  }

  /** After `removeWall` the east wall of (x, y) still agrees with the west wall of its right neighbour. */
  lemma WallRemovedEastWest(g: Grid, w: nat, h: nat, current: Coord, next: Coord, x: nat, y: nat)
    requires Shaped(g, w, h) && InGrid(current, w, h) && InGrid(next, w, h)
    requires Adjacent(current, next) && Symmetric(g, w, h) && y < h && x + 1 < w
    ensures WallRemoved(g, w, h, current, next)[y][x].walls.east == WallRemoved(g, w, h, current, next)[y][x + 1].walls.west
  {
    WallRemovedAt(g, w, h, current, next, x, y);
    WallRemovedAt(g, w, h, current, next, x + 1, y);
    CellAfterRemoveSide(g[y][x], Coord(x, y), current, next, East);
    CellAfterRemoveSide(g[y][x + 1], Coord(x + 1, y), current, next, West);
  }

  /** After `removeWall` the south wall of (x, y) still agrees with the north wall of the cell below. */
  lemma WallRemovedSouthNorth(g: Grid, w: nat, h: nat, current: Coord, next: Coord, x: nat, y: nat)
    requires Shaped(g, w, h) && InGrid(current, w, h) && InGrid(next, w, h)
    requires Adjacent(current, next) && Symmetric(g, w, h) && y + 1 < h && x < w
    ensures WallRemoved(g, w, h, current, next)[y][x].walls.south == WallRemoved(g, w, h, current, next)[y + 1][x].walls.north
  {
    WallRemovedAt(g, w, h, current, next, x, y);
    WallRemovedAt(g, w, h, current, next, x, y + 1);
    CellAfterRemoveSide(g[y][x], Coord(x, y), current, next, South);
    CellAfterRemoveSide(g[y + 1][x], Coord(x, y + 1), current, next, North);
  }

  lemma WallRemovedOuter(g: Grid, w: nat, h: nat, current: Coord, next: Coord)
    requires Shaped(g, w, h) && InGrid(current, w, h) && InGrid(next, w, h)
    requires Adjacent(current, next) && OuterClosed(g, w, h)
    ensures OuterClosed(WallRemoved(g, w, h, current, next), w, h)
  {
    var r: Grid := WallRemoved(g, w, h, current, next);
    forall x: nat | x < w
      ensures r[0][x].walls.north && r[h - 1][x].walls.south
    {
      WallRemovedAt(g, w, h, current, next, x, 0);
      WallRemovedAt(g, w, h, current, next, x, h - 1);
      CellAfterRemoveSide(g[0][x], Coord(x, 0), current, next, North);
      CellAfterRemoveSide(g[h - 1][x], Coord(x, h - 1), current, next, South);
    }
    forall y: nat | y < h
      ensures r[y][0].walls.west && r[y][w - 1].walls.east
    {
      WallRemovedAt(g, w, h, current, next, 0, y);
      WallRemovedAt(g, w, h, current, next, w - 1, y);
      CellAfterRemoveSide(g[y][0], Coord(0, y), current, next, West);
      CellAfterRemoveSide(g[y][w - 1], Coord(w - 1, y), current, next, East);
    }
  }

  /** From `g` to `g'` visited flags only get set and walls only come down. */
  predicate Grows(g: Grid, g': Grid, w: nat, h: nat)
  {
    && Shaped(g, w, h) && Shaped(g', w, h)
    && forall y, x :: 0 <= y < h && 0 <= x < w ==> (g[y][x].visited ==> g'[y][x].visited) && Fewer(g[y][x].walls, g'[y][x].walls)
  }

  /**
   * One step of the backtracker on the grid: the wall between `current` and
   * its unvisited neighbour `next` comes down and `next` is marked visited.
   * The walls stay symmetric, the outer wall closed, the passage is open,
   * and one cell fewer is unvisited.
   */
  lemma PushGrid(g: Grid, w: nat, h: nat, current: Coord, next: Coord)
    requires Shaped(g, w, h) && InGrid(current, w, h) && InGrid(next, w, h)
    requires Adjacent(current, next) && !At(g, w, h, next).visited
    requires Symmetric(g, w, h) && OuterClosed(g, w, h)
    ensures Pushed(g, Visit(WallRemoved(g, w, h, current, next), w, h, next), w, h, current, next)
  {
    var g1: Grid := WallRemoved(g, w, h, current, next);
    WallRemovedSymmetric(g, w, h, current, next);
    VisitKeepsWalls(g1, w, h, next);
    WallRemovedGrows(g, w, h, current, next);
    VisitGrows(g, g1, w, h, next);
    SameVisits(g, g1, w, h);
    GridVisit(g1, w, h, next, h);
    forall a, b | Adjacent(a, b) && OpenBetween(Visit(g1, w, h, next), w, h, a, b)
      ensures OpenBetween(g, w, h, a, b) || (a == current && b == next) || (a == next && b == current)
    {
      PushOpensOne(g, w, h, current, next, a, b);
    }
  }

  /**
   * `removeWall(current, next)` followed by `next.visited = true` opens no
   * passage but the one between `current` and `next`.
   */
  lemma PushOpensOne(g: Grid, w: nat, h: nat, current: Coord, next: Coord, a: Coord, b: Coord)
    requires Shaped(g, w, h) && InGrid(current, w, h) && InGrid(next, w, h)
    requires Adjacent(current, next) && Adjacent(a, b)
    requires OpenBetween(Visit(WallRemoved(g, w, h, current, next), w, h, next), w, h, a, b)
    ensures OpenBetween(g, w, h, a, b) || (a == current && b == next) || (a == next && b == current)
  {
    var g1: Grid := WallRemoved(g, w, h, current, next);
    VisitSameWalls(g1, w, h, next, a);
    VisitSameWalls(g1, w, h, next, b);
    WallRemovedAt(g, w, h, current, next, a.x, a.y);
    WallRemovedAt(g, w, h, current, next, b.x, b.y);
    CellAfterRemoveSide(g[a.y][a.x], a, current, next, Facing(a, b));
    CellAfterRemoveSide(g[b.y][b.x], b, current, next, Facing(b, a));
    FacingAcross(a, b);
  }

  /** Marking `c` visited leaves the walls of every cell `d` as they were. */
  lemma VisitSameWalls(g: Grid, w: nat, h: nat, c: Coord, d: Coord)
    requires Shaped(g, w, h) && InGrid(c, w, h) && InGrid(d, w, h)
    ensures At(Visit(g, w, h, c), w, h, d).walls == At(g, w, h, d).walls
  {
  }

  /**
   * What one step of the backtracker makes of the grid `g`: `g'` has
   * symmetric walls and a closed outer wall, has grown from `g`, has the
   * passage from `current` to `next` open and no other passage newly open,
   * and has `next` as its one newly visited cell.
   */
  ghost predicate Pushed(g: Grid, g': Grid, w: nat, h: nat, current: Coord, next: Coord)
  {
    && h <= |g| && InGrid(current, w, h) && InGrid(next, w, h)
    && Shaped(g', w, h) && Symmetric(g', w, h) && OuterClosed(g', w, h)
    && Grows(g, g', w, h)
    && OpenBetween(g', w, h, current, next)
    && (forall a, b :: Adjacent(a, b) && OpenBetween(g', w, h, a, b) ==>
          OpenBetween(g, w, h, a, b) || (a == current && b == next) || (a == next && b == current))
    && g'[next.y][next.x].visited
    && (forall y, x :: 0 <= y < h && 0 <= x < w && g'[y][x].visited ==> g[y][x].visited || Coord(x, y) == next)
    && Unvisited(g', h) + 1 == Unvisited(g, h)
  }

  /** Marking a cell visited keeps every wall, hence symmetry and the outer wall. */
  lemma VisitKeepsWalls(g: Grid, w: nat, h: nat, c: Coord)
    requires Shaped(g, w, h) && InGrid(c, w, h)
    requires Symmetric(g, w, h) && OuterClosed(g, w, h)
    ensures Symmetric(Visit(g, w, h, c), w, h) && OuterClosed(Visit(g, w, h, c), w, h)
  {
    var g': Grid := Visit(g, w, h, c);
    forall y, x | 0 <= y < h && 0 <= x < w
      ensures g'[y][x].walls == g[y][x].walls
    {
      if y == c.y {
        assert g'[y] == g[y][c.x := g[y][c.x].(visited := true)];
      } else {
        assert g'[y] == g[y];
      }
    }
    SameWallsKeep(g, g', w, h);
  }

  /** Two grids with the same walls are alike in symmetry and outer wall. */
  lemma SameWallsKeep(g: Grid, g': Grid, w: nat, h: nat)
    requires Shaped(g, w, h) && Shaped(g', w, h)
    requires forall y, x :: 0 <= y < h && 0 <= x < w ==> g'[y][x].walls == g[y][x].walls
    requires Symmetric(g, w, h) && OuterClosed(g, w, h)
    ensures Symmetric(g', w, h) && OuterClosed(g', w, h)
  {
    forall y, x | 0 <= y < h && 0 <= x && x + 1 < w
      ensures g'[y][x].walls.east == g'[y][x + 1].walls.west
    {
      assert g[y][x].walls.east == g[y][x + 1].walls.west;
    }
    forall y, x | 0 <= y && y + 1 < h && 0 <= x < w
      ensures g'[y][x].walls.south == g'[y + 1][x].walls.north
    {
      assert g[y][x].walls.south == g[y + 1][x].walls.north;
    }
    forall x | 0 <= x < w && h > 0
      ensures g'[0][x].walls.north && g'[h - 1][x].walls.south
    {
      assert g[0][x].walls.north && g[h - 1][x].walls.south;
    }
    forall y | 0 <= y < h && w > 0
      ensures g'[y][0].walls.west && g'[y][w - 1].walls.east
    {
      assert g[y][0].walls.west && g[y][w - 1].walls.east;
    }
  }

  /** `removeWall` keeps every visited flag, only takes walls down, and opens the passage. */
  lemma WallRemovedGrows(g: Grid, w: nat, h: nat, current: Coord, next: Coord)
    requires Shaped(g, w, h) && InGrid(current, w, h) && InGrid(next, w, h)
    requires Adjacent(current, next)
    ensures var g1 := WallRemoved(g, w, h, current, next);
      && Grows(g, g1, w, h)
      && (forall y, x :: 0 <= y < h && 0 <= x < w ==> g1[y][x].visited == g[y][x].visited)
      && OpenBetween(g1, w, h, current, next)
  {
    var g1: Grid := WallRemoved(g, w, h, current, next);
    forall y: nat, x: nat | y < h && x < w
      ensures g1[y][x].visited == g[y][x].visited && Fewer(g[y][x].walls, g1[y][x].walls)
    {
      WallRemovedAt(g, w, h, current, next, x, y);
      CellAfterRemoveSide(g[y][x], Coord(x, y), current, next, North);
      CellAfterRemoveSide(g[y][x], Coord(x, y), current, next, South);
      CellAfterRemoveSide(g[y][x], Coord(x, y), current, next, East);
      CellAfterRemoveSide(g[y][x], Coord(x, y), current, next, West);
    }
    FacingAcross(current, next);
    WallRemovedAt(g, w, h, current, next, current.x, current.y);
    WallRemovedAt(g, w, h, current, next, next.x, next.y);
    CellAfterRemoveSide(g[current.y][current.x], current, current, next, Facing(current, next));
    CellAfterRemoveSide(g[next.y][next.x], next, current, next, Facing(next, current));
  }

  /** Marking `c` visited after a growing step is still growing, keeps open passages open, and visits only `c`. */
  lemma VisitGrows(g: Grid, g1: Grid, w: nat, h: nat, c: Coord)
    requires Grows(g, g1, w, h) && InGrid(c, w, h)
    requires forall y, x :: 0 <= y < h && 0 <= x < w ==> g1[y][x].visited == g[y][x].visited
    ensures var g' := Visit(g1, w, h, c);
      && Grows(g, g', w, h)
      && g'[c.y][c.x].visited
      && (forall y, x :: 0 <= y < h && 0 <= x < w && g'[y][x].visited ==> g[y][x].visited || Coord(x, y) == c)
      && (forall a, b :: OpenBetween(g1, w, h, a, b) ==> OpenBetween(g', w, h, a, b))
  {
    var g': Grid := Visit(g1, w, h, c);
    assert forall y, x :: 0 <= y < h && 0 <= x < w ==> g'[y][x].walls == g1[y][x].walls;
    forall y: nat, x: nat | y < h && x < w && g'[y][x].visited
      ensures g[y][x].visited || Coord(x, y) == c
    {
      if Coord(x, y) != c {
        assert g'[y][x] == g1[y][x];
      }
    }
  }

  /** Open passages stay open while the grid grows. */
  lemma TreeGrows(g: Grid, g': Grid, w: nat, h: nat, order: seq<Coord>, parent: seq<int>)
    requires TreeSoFar(g, w, h, order, parent) && Grows(g, g', w, h)
    ensures TreeSoFar(g', w, h, order, parent)
  {
    forall k | 1 <= k < |order|
      ensures 0 <= parent[k] < k && OpenBetween(g', w, h, order[parent[k]], order[k])
    {
      var a, b := order[parent[k]], order[k];
      assert OpenBetween(g, w, h, a, b);
      assert Fewer(g[a.y][a.x].walls, g'[a.y][a.x].walls);
      assert Fewer(g[b.y][b.x].walls, g'[b.y][b.x].walls);
    }
  }

  // ----- Counting unvisited cells -----

  function RowUnvisited(r: seq<Cell>): nat
  {
    if |r| == 0 then 0 else RowUnvisited(r[..|r| - 1]) + (if r[|r| - 1].visited then 0 else 1)
  }

  /** The number of unvisited cells in the first `h` rows. */
  function Unvisited(g: Grid, h: nat): nat
    requires h <= |g|
  {
    if h == 0 then 0 else Unvisited(g, h - 1) + RowUnvisited(g[h - 1])
  }

  lemma {:induction false} RowSameVisits(r: seq<Cell>, s: seq<Cell>)
    requires |r| == |s| && forall i :: 0 <= i < |r| ==> r[i].visited == s[i].visited
    ensures RowUnvisited(r) == RowUnvisited(s)
  {
    if |r| > 0 {
      RowSameVisits(r[..|r| - 1], s[..|s| - 1]);
    }
  }

  lemma {:induction false} SameVisits(g: Grid, g': Grid, w: nat, h: nat)
    requires Shaped(g, w, h) && Shaped(g', w, h)
    requires forall y, x :: 0 <= y < h && 0 <= x < w ==> g[y][x].visited == g'[y][x].visited
    ensures Unvisited(g, h) == Unvisited(g', h)
  {
    if h > 0 {
      SameVisits(g, g', w, h - 1);
      RowSameVisits(g[h - 1], g'[h - 1]);
    }
  }

  lemma {:induction false} RowVisit(r: seq<Cell>, x: nat)
    requires x < |r| && !r[x].visited
    ensures RowUnvisited(r[x := r[x].(visited := true)]) + 1 == RowUnvisited(r)
  {
    var r' := r[x := r[x].(visited := true)];
    if x == |r| - 1 {
      assert r'[..|r'| - 1] == r[..|r| - 1];
    } else {
      RowVisit(r[..|r| - 1], x);
      assert r'[..|r'| - 1] == r[..|r| - 1][x := r[x].(visited := true)];
    }
  }

  lemma {:induction false} GridVisit(g: Grid, w: nat, h: nat, c: Coord, k: nat)
    requires Shaped(g, w, h) && InGrid(c, w, h) && !At(g, w, h, c).visited
    requires k <= h
    ensures Unvisited(Visit(g, w, h, c), k) + (if c.y < k then 1 else 0) == Unvisited(g, k)
  {
    if k > 0 {
      GridVisit(g, w, h, c, k - 1);
      if c.y == k - 1 {
        RowVisit(g[c.y], c.x);
      }
    }
  }

  lemma {:induction false} FreshUnvisited(w: nat, h: nat, rest: Grid)
    ensures Unvisited(Fresh(w, h) + rest, h) == w * h
  {
    if h > 0 {
      var g := Fresh(w, h) + rest;
      assert Fresh(w, h - 1) + ([FreshRow(w)] + rest) == g;
      FreshUnvisited(w, h - 1, [FreshRow(w)] + rest);
      FreshRowUnvisited(w);
      assert w * h == w * (h - 1) + w;
    }
  }

  lemma {:induction false} FreshRowUnvisited(w: nat)
    ensures RowUnvisited(FreshRow(w)) == w
  {
    if w > 0 {
      assert FreshRow(w)[..w - 1] == FreshRow(w - 1);
      FreshRowUnvisited(w - 1);
    }
  }

  lemma {:induction false} RowAllVisited(r: seq<Cell>)
    requires forall i :: 0 <= i < |r| ==> r[i].visited
    ensures RowUnvisited(r) == 0
  {
    if |r| > 0 {
      RowAllVisited(r[..|r| - 1]);
    }
  }

  lemma {:induction false} AllVisitedNone(g: Grid, w: nat, h: nat)
    requires Shaped(g, w, h)
    requires forall y, x :: 0 <= y < h && 0 <= x < w ==> g[y][x].visited
    ensures Unvisited(g, h) == 0
  {
    if h > 0 {
      AllVisitedNone(g, w, h - 1);
      RowAllVisited(g[h - 1]);
    }
  }

  // ----- The backtracker's invariant -----

  /**
   * The passages the backtracker carved: the cells in the order they were
   * first visited, each once, starting from (0, 0); each later cell was
   * entered from an earlier one, `order[parent[k]]`, that is adjacent to it
   * and joined to it by an open passage.
   */
  ghost predicate TreeSoFar(g: Grid, w: nat, h: nat, order: seq<Coord>, parent: seq<int>)
  {
    && |order| == |parent| && |order| > 0
    && order[0] == Coord(0, 0)
    && (forall i, j :: 0 <= i < j < |order| ==> order[i] != order[j])
    && (forall k {:trigger parent[k]} :: 1 <= k < |order| ==>
          0 <= parent[k] < k && Adjacent(order[parent[k]], order[k]) && OpenBetween(g, w, h, order[parent[k]], order[k]))
  }

  /** The adjacent cells `a` and `b` are a tree edge: a cell and the earlier cell it was entered from, either way round. */
  ghost predicate TreeEdge(order: seq<Coord>, parent: seq<int>, a: Coord, b: Coord)
  {
    exists k :: 1 <= k < |order| && |parent| == |order| && 0 <= parent[k] < k &&
      ((a == order[parent[k]] && b == order[k]) || (a == order[k] && b == order[parent[k]]))
  }

  /** No passage is open but the tree's: every open passage between adjacent cells is a tree edge. */
  ghost predicate OnlyTreeOpen(g: Grid, w: nat, h: nat, order: seq<Coord>, parent: seq<int>)
  {
    forall a, b :: Adjacent(a, b) && OpenBetween(g, w, h, a, b) ==> TreeEdge(order, parent, a, b)
  }

  /** Every visited cell that has left the stack has no unvisited neighbour. */
  ghost predicate Finished(g: Grid, w: nat, h: nat, stack: seq<Coord>)
    requires Shaped(g, w, h)
  {
    forall y: nat, x: nat {:trigger AllNeighboursVisited(g, w, h, Coord(x, y))} ::
      y < h && x < w && g[y][x].visited && Coord(x, y) !in stack ==> AllNeighboursVisited(g, w, h, Coord(x, y))
  }

  /**
   * What holds at the head of `generate`'s `while` loop: the walls are
   * symmetric with the outer wall closed; the visited cells are `order`,
   * one wall removed per visited cell after the first, and the open
   * passages are exactly the tree's; the stack holds
   * visited cells (`stack[i]` is `order[index[i]]`) and is no longer than
   * `order`; and every visited cell that has left the stack has no
   * unvisited neighbour.
   */
  ghost predicate CarveInv(g: Grid, w: nat, h: nat, stack: seq<Coord>, index: seq<int>, removals: nat, order: seq<Coord>, parent: seq<int>)
  {
    && w >= 1 && h >= 1
    && Shaped(g, w, h)
    && Symmetric(g, w, h) && OuterClosed(g, w, h)
    && TreeSoFar(g, w, h, order, parent)
    && OnlyTreeOpen(g, w, h, order, parent)
    && |order| == removals + 1
    && Unvisited(g, h) + |order| == w * h
    && |index| == |stack| <= |order|
    && (forall i {:trigger index[i]} :: 0 <= i < |stack| ==> 0 <= index[i] < |order| && order[index[i]] == stack[i])
    && (forall k :: 0 <= k < |order| ==> InGrid(order[k], w, h) && At(g, w, h, order[k]).visited)
    && Finished(g, w, h, stack)
  }

  lemma CarveStart(g: Grid, w: nat, h: nat, rest: Grid)
    requires w >= 1 && h >= 1 && g == Fresh(w, h) + rest
    ensures Shaped(g, w, h)
    ensures CarveInv(Visit(g, w, h, Coord(0, 0)), w, h, [Coord(0, 0)], [0], 0, [Coord(0, 0)], [0])
  {
    var o := Coord(0, 0);
    assert Shaped(g, w, h);
    var g': Grid := Visit(g, w, h, o);
    FreshUnvisited(w, h, rest);
    GridVisit(g, w, h, o, h);
    forall y: nat, x: nat | y < h && x < w
      ensures g'[y][x].visited ==> Coord(x, y) == o
      ensures g'[y][x].walls == AllWalls
    {
      assert g[y][x] == Cell(false, AllWalls);
    }
  }

  /** A step of the backtracker leaves the rows past `h` alone. */
  lemma PushKeepsRest(g: Grid, w: nat, h: nat, current: Coord, next: Coord)
    requires Shaped(g, w, h) && InGrid(current, w, h) && InGrid(next, w, h)
    ensures var g' := Visit(WallRemoved(g, w, h, current, next), w, h, next);
      |g'| == |g| && g'[h..] == g[h..]
  {
    var g1: Grid := WallRemoved(g, w, h, current, next);
    forall y | h <= y < |g|
      ensures g1[y] == g[y]
    {
      forall x | 0 <= x < |g[y]|
        ensures g1[y][x] == g[y][x]
      {
        assert Coord(x, y) != current && Coord(x, y) != next;
      }
    }
    var g': Grid := Visit(g1, w, h, next);
    assert g'[h..] == g1[h..];
  }

  /** Pushing an unvisited neighbour: remove the wall, mark it, push it. */
  lemma CarvePush(g: Grid, g': Grid, w: nat, h: nat, stack: seq<Coord>, index: seq<int>, removals: nat, order: seq<Coord>, parent: seq<int>, next: Coord)
    requires CarveInv(g, w, h, stack, index, removals, order, parent)
    requires |stack| > 0 && Adjacent(stack[|stack| - 1], next) && Pushed(g, g', w, h, stack[|stack| - 1], next)
    requires !At(g, w, h, next).visited
    ensures CarveInv(g', w, h, stack + [next], index + [|order|], removals + 1, order + [next], parent + [index[|stack| - 1]])
    ensures Unvisited(g', h) < Unvisited(g, h)
  {
    var top := |stack| - 1;
    assert 0 <= index[top] < |order| && order[index[top]] == stack[top];
    PushTree(g, g', w, h, order, parent, index[top], next);
    PushOnlyTree(g, g', w, h, order, parent, index[top], next);
    PushFinished(g, g', w, h, stack, next);
    PushStack(stack, index, order, next);
    PushOrder(g, g', w, h, order, next);
  }

  lemma PushStack(stack: seq<Coord>, index: seq<int>, order: seq<Coord>, next: Coord)
    requires |index| == |stack|
    requires forall i {:trigger index[i]} :: 0 <= i < |stack| ==> 0 <= index[i] < |order| && order[index[i]] == stack[i]
    ensures forall i {:trigger (index + [|order|])[i]} :: 0 <= i < |stack + [next]| ==>
      0 <= (index + [|order|])[i] < |order + [next]| && (order + [next])[(index + [|order|])[i]] == (stack + [next])[i]
  {
    var index' := index + [|order|];
    forall i | 0 <= i < |stack| + 1
      ensures 0 <= index'[i] < |order| + 1 && (order + [next])[index'[i]] == (stack + [next])[i]
    {
      if i < |stack| {
        assert index'[i] == index[i];
      }
    }
  }

  lemma PushOrder(g: Grid, g': Grid, w: nat, h: nat, order: seq<Coord>, next: Coord)
    requires Grows(g, g', w, h)
    requires forall k :: 0 <= k < |order| ==> InGrid(order[k], w, h) && At(g, w, h, order[k]).visited
    requires InGrid(next, w, h) && g'[next.y][next.x].visited
    ensures forall k :: 0 <= k < |order + [next]| ==> InGrid((order + [next])[k], w, h) && At(g', w, h, (order + [next])[k]).visited
  {
    forall k | 0 <= k < |order| + 1
      ensures InGrid((order + [next])[k], w, h) && At(g', w, h, (order + [next])[k]).visited
    {
      if k < |order| {
        var c := order[k];
        assert InGrid(c, w, h) && g[c.y][c.x].visited;
        assert g'[c.y][c.x].visited;
      }
    }
  }

  lemma PushTree(g: Grid, g': Grid, w: nat, h: nat, order: seq<Coord>, parent: seq<int>, p: int, next: Coord)
    requires TreeSoFar(g, w, h, order, parent) && Grows(g, g', w, h)
    requires forall k :: 0 <= k < |order| ==> InGrid(order[k], w, h) && At(g, w, h, order[k]).visited
    requires 0 <= p < |order| && Adjacent(order[p], next) && OpenBetween(g', w, h, order[p], next)
    requires InGrid(next, w, h) && !At(g, w, h, next).visited
    ensures TreeSoFar(g', w, h, order + [next], parent + [p])
  {
    TreeGrows(g, g', w, h, order, parent);
    assert next !in order;
    var order' := order + [next];
    var parent' := parent + [p];
    forall k | 1 <= k < |order'|
      ensures parent'[k] < k && Adjacent(order'[parent'[k]], order'[k]) && OpenBetween(g', w, h, order'[parent'[k]], order'[k])
    {
      if k < |order| {
        assert parent'[k] == parent[k];
      }
    }
  }

  /** The passage a push opens is the new tree edge, so only tree passages stay open. */
  lemma PushOnlyTree(g: Grid, g': Grid, w: nat, h: nat, order: seq<Coord>, parent: seq<int>, p: int, next: Coord)
    requires OnlyTreeOpen(g, w, h, order, parent) && |order| == |parent|
    requires 0 <= p < |order| && Pushed(g, g', w, h, order[p], next)
    ensures OnlyTreeOpen(g', w, h, order + [next], parent + [p])
  {
    var order', parent' := order + [next], parent + [p];
    forall a, b | Adjacent(a, b) && OpenBetween(g', w, h, a, b)
      ensures TreeEdge(order', parent', a, b)
    {
      if OpenBetween(g, w, h, a, b) {
        var k :| 1 <= k < |order| && |parent| == |order| && 0 <= parent[k] < k &&
          ((a == order[parent[k]] && b == order[k]) || (a == order[k] && b == order[parent[k]]));
        assert order'[k] == order[k] && parent'[k] == parent[k] && order'[parent[k]] == order[parent[k]];
      } else {
        var k := |order|;
        assert order'[k] == next && parent'[k] == p && order'[p] == order[p];
      }
    }
  }

  lemma PushFinished(g: Grid, g': Grid, w: nat, h: nat, stack: seq<Coord>, next: Coord)
    requires Grows(g, g', w, h)
    requires forall y, x :: 0 <= y < h && 0 <= x < w && g'[y][x].visited ==> g[y][x].visited || Coord(x, y) == next
    requires Finished(g, w, h, stack)
    ensures Finished(g', w, h, stack + [next])
  {
    forall y: nat, x: nat | y < h && x < w && g'[y][x].visited && Coord(x, y) !in stack + [next]
      ensures AllNeighboursVisited(g', w, h, Coord(x, y))
    {
      assert g[y][x].visited;
      assert AllNeighboursVisited(g, w, h, Coord(x, y));
    }
  }

  /** Popping a cell with no unvisited neighbour. */
  lemma CarvePop(g: Grid, w: nat, h: nat, stack: seq<Coord>, index: seq<int>, removals: nat, order: seq<Coord>, parent: seq<int>)
    requires CarveInv(g, w, h, stack, index, removals, order, parent)
    requires |stack| > 0 && InGrid(stack[|stack| - 1], w, h)
    requires UnvisitedNeighbors(g, w, h, stack[|stack| - 1]) == []
    ensures CarveInv(g, w, h, stack[..|stack| - 1], index[..|stack| - 1], removals, order, parent)
  {
    var top := stack[|stack| - 1];
    NoNeighborLeft(g, w, h, top);
    forall y: nat, x: nat | y < h && x < w && g[y][x].visited && Coord(x, y) !in stack[..|stack| - 1]
      ensures AllNeighboursVisited(g, w, h, Coord(x, y))
    {
      if Coord(x, y) in stack {
        assert stack == stack[..|stack| - 1] + [top];
      }
    }
    var index' := index[..|stack| - 1];
    forall i | 0 <= i < |stack| - 1
      ensures 0 <= index'[i] < |order| && order[index'[i]] == stack[..|stack| - 1][i]
    {
      assert index'[i] == index[i];
    }
  }

  /** Cell (x, y) is reached from (0, 0) through visited cells whose neighbours are all visited. */
  lemma {:induction false} Reached(g: Grid, w: nat, h: nat, x: nat, y: nat)
    requires Shaped(g, w, h) && x < w && y < h && g[0][0].visited
    requires forall y, x :: 0 <= y < h && 0 <= x < w && g[y][x].visited ==> AllNeighboursVisited(g, w, h, Coord(x, y))
    ensures g[y][x].visited
    decreases x + y
  {
    if x > 0 {
      Reached(g, w, h, x - 1, y);
      assert AllNeighboursVisited(g, w, h, Coord(x - 1, y));
    } else if y > 0 {
      Reached(g, w, h, x, y - 1);
      assert AllNeighboursVisited(g, w, h, Coord(x, y - 1));
    }
  }

  /** With the stack empty, every cell has been visited and exactly w·h − 1 walls were removed. */
  lemma CarveDone(g: Grid, w: nat, h: nat, removals: nat, order: seq<Coord>, parent: seq<int>)
    requires CarveInv(g, w, h, [], [], removals, order, parent)
    ensures forall y, x :: 0 <= y < h && 0 <= x < w ==> g[y][x].visited
    ensures removals == w * h - 1 && |order| == w * h
  {
    assert At(g, w, h, order[0]).visited;
    forall y: nat, x: nat | y < h && x < w && g[y][x].visited
      ensures AllNeighboursVisited(g, w, h, Coord(x, y))
    {
    }
    forall y: nat, x: nat | y < h && x < w
      ensures g[y][x].visited
    {
      Reached(g, w, h, x, y);
    }
    AllVisitedNone(g, w, h);
  }

  /**
   * The result of `generate`: a perfect maze. Every cell is visited, the
   * walls are symmetric, the outer wall is closed, and the w·h cells,
   * listed once each in visiting order from (0, 0), are joined into a
   * spanning tree: one open passage to each later cell from an earlier one,
   * w·h − 1 in all, and no other passage open.
   */
  ghost predicate PerfectMaze(g: Grid, w: nat, h: nat, order: seq<Coord>, parent: seq<int>)
  {
    && Shaped(g, w, h)
    && Symmetric(g, w, h) && OuterClosed(g, w, h)
    && (forall y, x :: 0 <= y < h && 0 <= x < w ==> g[y][x].visited)
    && TreeSoFar(g, w, h, order, parent)
    && OnlyTreeOpen(g, w, h, order, parent)
    && |order| == w * h
    && (forall k :: 0 <= k < |order| ==> InGrid(order[k], w, h))
  }

  /** In a perfect maze the passage between two adjacent cells is open exactly when it is a tree edge. */
  lemma PerfectMazePassages(g: Grid, w: nat, h: nat, order: seq<Coord>, parent: seq<int>, a: Coord, b: Coord)
    requires PerfectMaze(g, w, h, order, parent) && Adjacent(a, b)
    ensures OpenBetween(g, w, h, a, b) <==> TreeEdge(order, parent, a, b)
  {
    if TreeEdge(order, parent, a, b) {
      var k :| 1 <= k < |order| && |parent| == |order| && 0 <= parent[k] < k &&
        ((a == order[parent[k]] && b == order[k]) || (a == order[k] && b == order[parent[k]]));
      assert OpenBetween(g, w, h, order[parent[k]], order[k]);
    }
  }

  // ----- Random cells and world positions -----

  /** `Math.floor(Math.random() * n)` for a raw draw `r`: some value below `n`, or 0 when `n` is 0. */
  function Scale(r: nat, n: nat): (v: nat)
    ensures n > 0 ==> v < n
  {
    if n == 0 then 0 else r % n
  }

  function DrawCell(d: (nat, nat), w: nat, h: nat): Coord
  {
    Coord(Scale(d.0, w), Scale(d.1, h))
  }

  /** The cell `getRandomEmptyCell` settles on: the first draw that is not excluded, if any. */
  function FirstFree(exclude: seq<Coord>, draws: seq<(nat, nat)>, w: nat, h: nat): Option<Coord>
  {
    if |draws| == 0 then None
    else if DrawCell(draws[0], w, h) !in exclude then Some(DrawCell(draws[0], w, h))
    else FirstFree(exclude, draws[1..], w, h)
  }

  /**
   * The cell found is the first drawn cell outside `exclude`, it lies in the
   * grid, and it is not excluded; no cell is found exactly when every draw
   * lands on an excluded cell.
   */
  lemma {:induction false} FirstFreeSpec(exclude: seq<Coord>, draws: seq<(nat, nat)>, w: nat, h: nat)
    requires w >= 1 && h >= 1
    ensures var r := FirstFree(exclude, draws, w, h);
      && (r.Some? ==> r.value !in exclude && InGrid(r.value, w, h))
      && (r.Some? ==> exists i :: 0 <= i < |draws| && r.value == DrawCell(draws[i], w, h) && forall j :: 0 <= j < i ==> DrawCell(draws[j], w, h) in exclude)
      && (r.None? <==> forall i :: 0 <= i < |draws| ==> DrawCell(draws[i], w, h) in exclude)
  {
    if |draws| > 0 && DrawCell(draws[0], w, h) in exclude {
      FirstFreeSpec(exclude, draws[1..], w, h);
      var r := FirstFree(exclude, draws, w, h);
      if r.Some? {
        var i :| 0 <= i < |draws[1..]| && r.value == DrawCell(draws[1..][i], w, h) && forall j :: 0 <= j < i ==> DrawCell(draws[1..][j], w, h) in exclude;
        assert r.value == DrawCell(draws[i + 1], w, h);
        assert forall j :: 0 <= j < i + 1 ==> DrawCell(draws[j], w, h) in exclude by {
          forall j | 0 <= j < i + 1
            ensures DrawCell(draws[j], w, h) in exclude
          {
            if j > 0 {
              assert draws[j] == draws[1..][j - 1];
            }
          }
        }
      } else {
        forall i | 0 <= i < |draws|
          ensures DrawCell(draws[i], w, h) in exclude
        {
          if i > 0 {
            assert draws[i] == draws[1..][i - 1];
          }
        }
      }
    } else if |draws| > 0 {
      assert 0 <= 0 < |draws|;
    }
  }

  /** When `exclude` covers the whole grid no draw is ever free: the script's retry loop would never end. */
  lemma FullExclusionNeverFree(exclude: seq<Coord>, draws: seq<(nat, nat)>, w: nat, h: nat)
    requires w >= 1 && h >= 1
    requires forall y, x :: 0 <= y < h && 0 <= x < w ==> Coord(x, y) in exclude
    ensures FirstFree(exclude, draws, w, h) == None
  {
    FirstFreeSpec(exclude, draws, w, h);
    forall i | 0 <= i < |draws|
      ensures DrawCell(draws[i], w, h) in exclude
    {
      var c := DrawCell(draws[i], w, h);
      assert Coord(c.x, c.y) in exclude;
    }
  }

  datatype WorldPos = WorldPos(x: int, z: int)

  /** `cellToWorldPosition`: the centre of the cell's square, `CellSize` units a side. */
  function CellToWorldPosition(c: Coord): WorldPos
  {
    WorldPos(c.x * CellSize + CellSize / 2, c.y * CellSize + CellSize / 2)
  }

  /** The cell whose square holds a world position. */
  function CellAt(p: WorldPos): Coord
    requires p.x >= 0 && p.z >= 0
  {
    Coord(p.x / CellSize, p.z / CellSize)
  }

  /**
   * `cellToWorldPosition` places (x, y) at (4x + 2, 4y + 2), strictly inside
   * its own square, so mapping back gives the same cell, and distinct cells
   * get distinct positions.
   */
  lemma CellToWorldPositionInverse(c: Coord, d: Coord)
    ensures var p := CellToWorldPosition(c);
      && p == WorldPos(4 * c.x + 2, 4 * c.y + 2)
      && CellSize * c.x < p.x < CellSize * (c.x + 1) && CellSize * c.y < p.z < CellSize * (c.y + 1)
      && CellAt(p) == c
    ensures CellToWorldPosition(c) == CellToWorldPosition(d) ==> c == d
  {
  }

  // ----- The generator object -----

  class MazeGenerator {
    const width: nat
    const height: nat
    var cells: Grid
    var entrance: Option<Coord>
    var exit: Option<Coord>

    /** `new MazeGenerator(width, height)`: no cells yet, no entrance or exit. */
    constructor (width: nat, height: nat)
      ensures this.width == width && this.height == height
      ensures cells == [] && entrance == None && exit == None
    {
      this.width := width;
      this.height := height;
      cells := [];
      entrance := None;
      exit := None;
    }

    /**
     * `generate()`: fresh cells with all walls, then the backtracker from
     * (0, 0), then the entrance and exit on opposite corners. Any rows past
     * `height` that an earlier grid left behind stay as they were. The ghost
     * results report the number of `removeWall` calls, the largest stack, and
     * the visiting order with each cell's parent.
     */
    method Generate(draw: nat -> nat) returns (ghost removals: nat, ghost peak: nat, ghost order: seq<Coord>, ghost parent: seq<int>)
      requires width >= 1 && height >= 1
      modifies this
      ensures PerfectMaze(cells, width, height, order, parent)
      ensures |cells| >= height && cells[height..] == Tail(old(cells), height)
      ensures removals == width * height - 1 && peak <= width * height
      ensures entrance == Some(Coord(0, 0)) && exit == Some(Coord(width - 1, height - 1))
    {
      InitCells();
      CarveStart(cells, width, height, Tail(old(cells), height));
      ghost var initial := cells;
      cells := cells[0 := cells[0][0 := cells[0][0].(visited := true)]];
      assert cells[height..] == initial[height..];
      removals, peak, order, parent := Carve(draw);
      entrance := Some(Coord(0, 0));
      exit := Some(Coord(width - 1, height - 1));
    }

    /** The nested loops at the top of `generate`. */
    method InitCells()
      modifies this`cells
      ensures cells == Fresh(width, height) + Tail(old(cells), height)
    {
      for y := 0 to height
        invariant cells == Fresh(width, y) + Tail(old(cells), y)
      {
        ResetRow(width, y, old(cells), cells);
        if y < |cells| {
          cells := cells[y := []];
        } else {
          cells := cells + [[]];
        }
        for x := 0 to width
          invariant cells == Fresh(width, y) + [FreshRow(x)] + Tail(old(cells), y + 1)
          {
          AppendCell(width, y, x, old(cells), cells);
          cells := cells[y := cells[y] + [Cell(false, AllWalls)]];
        }
        RowDone(width, y, old(cells));
      }
    }

    /** The backtracking loop of `generate`, from the stack holding the visited corner (0, 0). */
    method Carve(draw: nat -> nat) returns (ghost removals: nat, ghost peak: nat, ghost order: seq<Coord>, ghost parent: seq<int>)
      requires CarveInv(cells, width, height, [Coord(0, 0)], [0], 0, [Coord(0, 0)], [0])
      modifies this`cells
      ensures PerfectMaze(cells, width, height, order, parent)
      ensures |cells| == |old(cells)| && cells[height..] == old(cells)[height..]
      ensures removals == width * height - 1 && peak <= width * height
    {
      var start := Coord(0, 0);
      var stack := [start];
      ghost var index: seq<int> := [0];
      var draws := 0;
      order, parent, peak := [start], [0], 1;
      while |stack| > 0
        invariant CarveInv(cells, width, height, stack, index, draws, order, parent)
        invariant |cells| == |old(cells)| && cells[height..] == old(cells)[height..]
        invariant peak <= |order|
        decreases Unvisited(cells, height), |stack|
      {
        var current := stack[|stack| - 1];
        assert 0 <= index[|stack| - 1] < |order| && order[index[|stack| - 1]] == current;
        var neighbors := UnvisitedNeighbors(cells, width, height, current);
        if |neighbors| > 0 {
          var next := neighbors[draw(draws) % |neighbors|];
          NeighborPicked(cells, width, height, current, next);
          ghost var before := cells;
          Advance(current, next);
          CarvePush(before, cells, width, height, stack, index, draws, order, parent, next);
          index, order, parent := index + [|order|], order + [next], parent + [index[|stack| - 1]];
          stack := stack + [next];
          draws := draws + 1;
          peak := if |stack| > peak then |stack| else peak;
        } else {
          CarvePop(cells, width, height, stack, index, draws, order, parent);
          stack := stack[..|stack| - 1];
          index := index[..|index| - 1];
        }
      }
      CarveDone(cells, width, height, draws, order, parent);
      removals := draws;
    }

    /**
     * `removeWall(current, next)` then `next.visited = true`, for an
     * unvisited neighbour `next` of `current`: see `Pushed`.
     */
    method Advance(current: Coord, next: Coord)
      requires Shaped(cells, width, height) && InGrid(current, width, height)
      requires Symmetric(cells, width, height) && OuterClosed(cells, width, height)
      requires next in UnvisitedNeighbors(cells, width, height, current)
      modifies this`cells
      ensures cells == Visit(WallRemoved(old(cells), width, height, current, next), width, height, next)
      ensures Pushed(old(cells), cells, width, height, current, next)
      ensures |cells| == |old(cells)| && cells[height..] == old(cells)[height..]
    {
      NeighborPicked(cells, width, height, current, next);
      PushGrid(cells, width, height, current, next);
      PushKeepsRest(cells, width, height, current, next);
      RemoveWall(current, next);
      cells := cells[next.y := cells[next.y][next.x := cells[next.y][next.x].(visited := true)]];
    }

    /** `removeWall(current, next)` on the stored cells. */
    method RemoveWall(current: Coord, next: Coord)
      requires Shaped(cells, width, height) && InGrid(current, width, height) && InGrid(next, width, height)
      modifies this`cells
      ensures cells == WallRemoved(old(cells), width, height, current, next)
    {
      var dx := next.x - current.x;
      var dy := next.y - current.y;
      var c := cells[current.y][current.x];
      var n := cells[next.y][next.x];
      if dx == 1 {
        c, n := c.(walls := c.walls.(east := false)), n.(walls := n.walls.(west := false));
      } else if dx == -1 {
        c, n := c.(walls := c.walls.(west := false)), n.(walls := n.walls.(east := false));
      } else if dy == 1 {
        c, n := c.(walls := c.walls.(south := false)), n.(walls := n.walls.(north := false));
      } else if dy == -1 {
        c, n := c.(walls := c.walls.(north := false)), n.(walls := n.walls.(south := false));
      } else {
        SameGrid(cells, WallRemoved(cells, width, height, current, next));
        return;
      }
      TwoEdits(cells, width, height, current, next, c, n);
      cells := cells[current.y := cells[current.y][current.x := c]];
      cells := cells[next.y := cells[next.y][next.x := n]];
    }

    /**
     * `getRandomEmptyCell(exclude)`: draw cells until one is not excluded.
     * The draws come from the finite sequence `draws`; when it runs out the
     * result is `None`, where the script would keep drawing.
     */
    method GetRandomEmptyCell(exclude: seq<Coord>, draws: seq<(nat, nat)>) returns (cell: Option<Coord>)
      ensures cell == FirstFree(exclude, draws, width, height)
    {
      var i := 0;
      while i < |draws|
        invariant 0 <= i <= |draws|
        invariant FirstFree(exclude, draws, width, height) == FirstFree(exclude, draws[i..], width, height)
      {
        var c := DrawCell(draws[i], width, height);
        assert draws[i..][1..] == draws[i + 1..];
        i := i + 1;
        if c !in exclude {
          return Some(c);
        }
      }
      return None;
    }
  }

  /** The rows of `g` from row `k` on, if any. */
  function Tail(g: Grid, k: nat): Grid
  {
    if k <= |g| then g[k..] else []
  }

  /** `this.cells[y] = []` on a grid whose first `y` rows are fresh. */
  lemma ResetRow(w: nat, y: nat, o: Grid, g: Grid)
    requires g == Fresh(w, y) + Tail(o, y)
    ensures (if y < |g| then g[y := []] else g + [[]]) == Fresh(w, y) + [FreshRow(0)] + Tail(o, y + 1)
  {
    assert FreshRow(0) == [];
    if y < |o| {
      assert Tail(o, y) == [o[y]] + Tail(o, y + 1);
    }
  }

  /** Row `y` complete: the first `y + 1` rows are fresh. */
  lemma RowDone(w: nat, y: nat, o: Grid)
    ensures Fresh(w, y) + [FreshRow(w)] + Tail(o, y + 1) == Fresh(w, y + 1) + Tail(o, y + 1)
  {
    assert Fresh(w, y) + [FreshRow(w)] == Fresh(w, y + 1);
  }

  /** `this.cells[y][x] = { ... }` appends a fresh cell to row `y`. */
  lemma AppendCell(w: nat, y: nat, x: nat, o: Grid, g: Grid)
    requires g == Fresh(w, y) + [FreshRow(x)] + Tail(o, y + 1)
    ensures g[y := g[y] + [Cell(false, AllWalls)]] == Fresh(w, y) + [FreshRow(x + 1)] + Tail(o, y + 1)
  {
    assert FreshRow(x) + [Cell(false, AllWalls)] == FreshRow(x + 1);
  }
}
