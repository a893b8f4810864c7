/** A robot in a walled warehouse pushes rows of boxes: a move succeeds when the run of
    tiles ahead of the robot ends in an empty cell, and then the whole run shifts by one. */
module WarehouseRobot {

  type Grid = seq<seq<char>>
  /** A coordinate is (x, y): column, then row. */
  type Coord = (int, int)

  const Wall := '#'
  const Empty := '.'
  const Box := 'O'
  const Robot := '@'

  /** A GPS coordinate weighs the row by this factor. */
  const RowWeight := 100

  datatype Movement = Up | Down | Left | Right

  datatype Option<T> = None | Some(value: T)

  function ParseMovement(ch: char): (r: Option<Movement>)
    ensures r.Some? <==> ch in {'^', 'v', '<', '>'}
  {
    match ch
    case '^' => Some(Up)
    case 'v' => Some(Down)
    case '<' => Some(Left)
    case '>' => Some(Right)
    case _ => None
  }

  /** get_relative_coord. */
  function RelativeCoord(pos: Coord, movement: Movement): Coord
  {
    match movement
    case Up => (pos.0, pos.1 - 1)
    case Down => (pos.0, pos.1 + 1)
    case Left => (pos.0 - 1, pos.1)
    case Right => (pos.0 + 1, pos.1)
  }

  predicate Rect(g: Grid)
  {
    |g| > 0 && forall y :: 0 <= y < |g| ==> |g[y]| == |g[0]|
  }

  predicate InGrid(g: Grid, p: Coord)
    requires Rect(g)
  {
    0 <= p.1 < |g| && 0 <= p.0 < |g[0]|
  }

  function At(g: Grid, p: Coord): char
    requires Rect(g) && InGrid(g, p)
  {
    g[p.1][p.0]
  }

  /** The warehouse is surrounded by walls, so every push stops inside the grid. */
  predicate Walled(g: Grid)
  {
    && Rect(g)
    && forall y, x :: 0 <= y < |g| && 0 <= x < |g[y]| && (y == 0 || y == |g| - 1 || x == 0 || x == |g[y]| - 1) ==> g[y][x] == Wall
  }

  predicate Interior(g: Grid, p: Coord)
    requires Rect(g)
  {
    0 < p.1 < |g| - 1 && 0 < p.0 < |g[0]| - 1
  }

  /** A cell that is not a wall lies inside the border. */
  lemma NonWallIsInterior(g: Grid, p: Coord)
    requires Walled(g) && InGrid(g, p) && At(g, p) != Wall
    ensures Interior(g, p)
  {
  }

  /** How far the border is in the direction of movement. */
  function Room(g: Grid, p: Coord, movement: Movement): int
    requires Rect(g)
  {
    match movement
    case Up => p.1
    case Down => |g| - p.1
    case Left => p.0
    case Right => |g[0]| - p.0
  }

  /** can_move: a wall ahead blocks, an empty cell ahead allows, and anything else moves only
      if it can move itself. */
  function CanMove(g: Grid, pos: Coord, movement: Movement): bool
    requires Walled(g) && Interior(g, pos)
    decreases Room(g, pos, movement)
  {
    var next := RelativeCoord(pos, movement);
    var contents := At(g, next);
    if contents == Wall then false
    else if contents == Empty then true
    else CanMove(g, next, movement)
  }

  /** The grid with one cell replaced. */
  function SetCell(g: Grid, p: Coord, c: char): (r: Grid)
    requires Rect(g) && InGrid(g, p)
    ensures Rect(r) && |r| == |g| && |r[0]| == |g[0]|
    ensures forall q :: InGrid(r, q) ==> At(r, q) == if q == p then c else At(g, q)
  {
    g[p.1 := g[p.1][p.0 := c]]
  }

  /** The cells from p onwards in the direction of movement. */
  predicate OnRay(p: Coord, movement: Movement, c: Coord)
  {
    match movement
    case Up => c.0 == p.0 && c.1 <= p.1
    case Down => c.0 == p.0 && c.1 >= p.1
    case Left => c.1 == p.1 && c.0 <= p.0
    case Right => c.1 == p.1 && c.0 >= p.0
  }

  /** The cell j steps from p in the direction of movement. */
  function Shift(p: Coord, movement: Movement, j: nat): Coord
    decreases j
  {
    if j == 0 then p else Shift(RelativeCoord(p, movement), movement, j - 1)
  }

  /** How many steps c lies ahead of p in the direction of movement. */
  function Dist(p: Coord, movement: Movement, c: Coord): int
  {
    match movement
    case Up => p.1 - c.1
    case Down => c.1 - p.1
    case Left => p.0 - c.0
    case Right => c.0 - p.0
  }

  lemma {:induction false} ShiftOnRay(p: Coord, movement: Movement, j: nat)
    ensures OnRay(p, movement, Shift(p, movement, j)) && Dist(p, movement, Shift(p, movement, j)) == j
    decreases j
  {
    if j > 0 {
      ShiftOnRay(RelativeCoord(p, movement), movement, j - 1);
    }
  }

  /** The length of the run can_move walks: the number of steps from pos to the first empty
      cell. */
  function RunLength(g: Grid, pos: Coord, movement: Movement): (n: nat)
    requires Walled(g) && Interior(g, pos) && CanMove(g, pos, movement)
    ensures n >= 1
    decreases Room(g, pos, movement)
  {
    var next := RelativeCoord(pos, movement);
    if At(g, next) == Empty then 1 else 1 + RunLength(g, next, movement)
  }

  /** The tile j steps along the run in g sits one step further on in r. */
  predicate MovedOn(g: Grid, r: Grid, pos: Coord, movement: Movement, j: nat)
  {
    var from, to := Shift(pos, movement, j), Shift(pos, movement, j + 1);
    && Rect(g) && Rect(r) && |r| == |g| && |r[0]| == |g[0]|
    && InGrid(g, from) && InGrid(g, to) && At(r, to) == At(g, from)
  }

  /** The grid after do_move: the run of tiles from pos up to the first empty cell shifts one
      cell along the movement, and pos becomes empty. Only cells on the ray from pos change,
      walls stay where they are, and pos's tile lands on the next cell. */
  function Pushed(g: Grid, pos: Coord, movement: Movement): (r: Grid)
    requires Walled(g) && Interior(g, pos) && At(g, pos) != Wall && CanMove(g, pos, movement)
    ensures Walled(r) && |r| == |g| && |r[0]| == |g[0]|
    ensures forall c :: InGrid(g, c) && !OnRay(pos, movement, c) ==> At(r, c) == At(g, c)
    ensures forall c :: InGrid(g, c) ==> (At(r, c) == Wall <==> At(g, c) == Wall)
    ensures At(r, pos) == Empty && At(r, RelativeCoord(pos, movement)) == At(g, pos)
    ensures forall j :: 0 <= j < RunLength(g, pos, movement) ==> MovedOn(g, r, pos, movement, j)
    ensures forall c :: InGrid(g, c) && OnRay(pos, movement, c) && Dist(pos, movement, c) > RunLength(g, pos, movement) ==>
      At(r, c) == At(g, c)
    decreases Room(g, pos, movement)
  {
    var next := RelativeCoord(pos, movement);
    var downstream := if At(g, next) == Empty then g else Pushed(g, next, movement);
    PushedStep(g, downstream, pos, movement);
    NonWallIsInterior(g, next);
    assert DownstreamPushed(g, downstream, pos, movement);
    PushedRunMoves(g, downstream, pos, movement);
    PushedRunBeyond(g, downstream, pos, movement);
    SetCell(SetCell(downstream, next, At(g, pos)), pos, Empty)
  }

  /** What the recursive do_move leaves behind for pos: nothing when the next cell is already
      empty, and otherwise the next cell's push, which empties it. */
  ghost predicate DownstreamPushed(g: Grid, downstream: Grid, pos: Coord, movement: Movement)
    requires Walled(g) && Interior(g, pos) && CanMove(g, pos, movement)
  {
    var next := RelativeCoord(pos, movement);
    && Walled(downstream) && |downstream| == |g| && |downstream[0]| == |g[0]|
    && InGrid(g, next) && InGrid(downstream, next)
    && (At(g, next) == Empty ==> downstream == g)
    && (At(g, next) != Empty ==>
          && Interior(g, next) && CanMove(g, next, movement)
          && At(downstream, next) == Empty
          && (forall j :: 0 <= j < RunLength(g, next, movement) ==> MovedOn(g, downstream, next, movement, j))
          && (forall c :: InGrid(g, c) && OnRay(next, movement, c) && Dist(next, movement, c) > RunLength(g, next, movement) ==>
                At(downstream, c) == At(g, c)))
  }

  /** The last move seen along the run: every tile of the run ends one step further on. */
  lemma PushedRunMoves(g: Grid, downstream: Grid, pos: Coord, movement: Movement)
    requires Walled(g) && Interior(g, pos) && At(g, pos) != Wall && CanMove(g, pos, movement)
    requires DownstreamPushed(g, downstream, pos, movement)
    ensures var next := RelativeCoord(pos, movement);
      var r := SetCell(SetCell(downstream, next, At(g, pos)), pos, Empty);
      forall j :: 0 <= j < RunLength(g, pos, movement) ==> MovedOn(g, r, pos, movement, j)
  {
    var next := RelativeCoord(pos, movement);
    var r := SetCell(SetCell(downstream, next, At(g, pos)), pos, Empty);
    var n := RunLength(g, pos, movement);
    assert n > 1 ==> At(g, next) != Empty && n - 1 == RunLength(g, next, movement);
    forall j | 0 <= j < n ensures MovedOn(g, r, pos, movement, j) {
      if j > 0 {
        MovedPastNext(g, downstream, pos, movement, j);
      }
    }
  }

  /** Setting the first two cells of the run leaves the tiles further on where the downstream
      push put them. */
  lemma MovedPastNext(g: Grid, downstream: Grid, pos: Coord, movement: Movement, j: nat)
    requires Walled(g) && Interior(g, pos) && InGrid(g, RelativeCoord(pos, movement)) && j > 0
    requires Walled(downstream) && |downstream| == |g| && |downstream[0]| == |g[0]|
    requires MovedOn(g, downstream, RelativeCoord(pos, movement), movement, j - 1)
    ensures var next := RelativeCoord(pos, movement);
      MovedOn(g, SetCell(SetCell(downstream, next, At(g, pos)), pos, Empty), pos, movement, j)
  {
    ShiftOnRay(pos, movement, j + 1);
  }

  /** The cells beyond the first empty one keep their tiles. */
  lemma PushedRunBeyond(g: Grid, downstream: Grid, pos: Coord, movement: Movement)
    requires Walled(g) && Interior(g, pos) && At(g, pos) != Wall && CanMove(g, pos, movement)
    requires DownstreamPushed(g, downstream, pos, movement)
    ensures var next := RelativeCoord(pos, movement);
      var r := SetCell(SetCell(downstream, next, At(g, pos)), pos, Empty);
      forall c :: InGrid(g, c) && OnRay(pos, movement, c) && Dist(pos, movement, c) > RunLength(g, pos, movement) ==>
        At(r, c) == At(g, c)
  {
    var next := RelativeCoord(pos, movement);
    var r := SetCell(SetCell(downstream, next, At(g, pos)), pos, Empty);
    forall c | InGrid(g, c) && OnRay(pos, movement, c) && Dist(pos, movement, c) > RunLength(g, pos, movement)
      ensures At(r, c) == At(g, c)
    {
      assert c != pos && c != next;
      if At(g, next) != Empty {
        assert OnRay(next, movement, c);
      }
    }
  }

  /** The last move of a push: once everything past pos has moved on, pos's tile moves into the
      freed cell ahead, and the result keeps the promises of Pushed. */
  lemma PushedStep(g: Grid, downstream: Grid, pos: Coord, movement: Movement)
    requires Walled(g) && Interior(g, pos) && At(g, pos) != Wall
    requires var next := RelativeCoord(pos, movement);
      InGrid(g, next) && At(g, next) != Wall
    requires Walled(downstream) && |downstream| == |g| && |downstream[0]| == |g[0]|
    requires var next := RelativeCoord(pos, movement);
      forall c :: InGrid(g, c) && !OnRay(next, movement, c) ==> At(downstream, c) == At(g, c)
    requires forall c :: InGrid(g, c) ==> (At(downstream, c) == Wall <==> At(g, c) == Wall)
    requires At(downstream, RelativeCoord(pos, movement)) == Empty
    ensures var next := RelativeCoord(pos, movement);
      var r := SetCell(SetCell(downstream, next, At(g, pos)), pos, Empty);
      && Walled(r) && |r| == |g| && |r[0]| == |g[0]|
      && (forall c :: InGrid(g, c) && !OnRay(pos, movement, c) ==> At(r, c) == At(g, c))
      && (forall c :: InGrid(g, c) ==> (At(r, c) == Wall <==> At(g, c) == Wall))
      && At(r, pos) == Empty && At(r, next) == At(g, pos)
  {
    var next := RelativeCoord(pos, movement);
    var r := SetCell(SetCell(downstream, next, At(g, pos)), pos, Empty);
    forall c | InGrid(g, c) && !OnRay(pos, movement, c) ensures At(r, c) == At(g, c) {
      assert c != next && !OnRay(next, movement, c);
    }
    NonWallIsInterior(g, next);
  }

  // ---- The multiset of tiles ----

  function Tiles(g: Grid): multiset<char>
  {
    if g == [] then multiset{} else Tiles(g[..|g| - 1]) + multiset(g[|g| - 1])
  }

  lemma {:induction false} TilesRowUpdate(g: Grid, y: nat, row: seq<char>)
    requires y < |g|
    ensures Tiles(g[y := row]) == Tiles(g) - multiset(g[y]) + multiset(row)
    decreases |g|
  {
    var h := g[y := row];
    var front, last := g[..|g| - 1], g[|g| - 1];
    assert Tiles(g) == Tiles(front) + multiset(last);
    if y == |g| - 1 {
      assert h[..|h| - 1] == front;
      assert Tiles(h) == Tiles(front) + multiset(row);
    } else {
      assert h[..|h| - 1] == front[y := row] && h[|h| - 1] == last;
      assert Tiles(h) == Tiles(front[y := row]) + multiset(last);
      TilesRowUpdate(front, y, row);
      TilesHasRow(front, y);
      ReplaceThenAdd(Tiles(front), multiset(g[y]), multiset(row), multiset(last));
    }
  }

  /** Replacing part of a multiset commutes with adding to it. */
  lemma ReplaceThenAdd(t: multiset<char>, a: multiset<char>, b: multiset<char>, l: multiset<char>)
    requires a <= t
    ensures t - a + b + l == t + l - a + b
  {
  }

  lemma {:induction false} TilesHasRow(g: Grid, y: nat)
    requires y < |g|
    ensures multiset(g[y]) <= Tiles(g)
  {
    if y < |g| - 1 {
      TilesHasRow(g[..|g| - 1], y);
    }
  }

  lemma RowUpdate(row: seq<char>, x: nat, c: char)
    requires x < |row|
    ensures multiset(row[x := c]) == multiset(row) - multiset{row[x]} + multiset{c}
  {
    assert row == row[..x] + [row[x]] + row[x + 1..];
    assert row[x := c] == row[..x] + [c] + row[x + 1..];
  }

  lemma SetCellTiles(g: Grid, p: Coord, c: char)
    requires Rect(g) && InGrid(g, p)
    ensures Tiles(SetCell(g, p, c)) == Tiles(g) - multiset{At(g, p)} + multiset{c}
  {
    RowUpdate(g[p.1], p.0, c);
    TilesRowUpdate(g, p.1, g[p.1][p.0 := c]);
    TilesHasRow(g, p.1);
  }

  /** Moving a tile into an empty cell and emptying its old cell keeps the tiles. */
  lemma MoveTileKeepsTiles(g: Grid, from: Coord, to: Coord)
    requires Rect(g) && InGrid(g, from) && InGrid(g, to) && from != to && At(g, to) == Empty
    ensures Tiles(SetCell(SetCell(g, to, At(g, from)), from, Empty)) == Tiles(g)
  {
    var t := At(g, from);
    var mid := SetCell(g, to, t);
    SetCellTiles(g, to, t);
    SetCellTiles(mid, from, Empty);
    assert At(mid, from) == t;
    TilesHasRow(g, to.1);
    assert g[to.1][to.0] in multiset(g[to.1]);
    SwapBack(Tiles(g), Empty, t);
  }

  /** Swapping a member out for b and back again restores the multiset. */
  lemma SwapBack(m: multiset<char>, a: char, b: char)
    requires a in m
    ensures m - multiset{a} + multiset{b} - multiset{b} + multiset{a} == m
  {
  }

  /** A push keeps every tile: the numbers of boxes, walls and robots never change. */
  lemma {:induction false} PushedKeepsTiles(g: Grid, pos: Coord, movement: Movement)
    requires Walled(g) && Interior(g, pos) && At(g, pos) != Wall && CanMove(g, pos, movement)
    ensures Tiles(Pushed(g, pos, movement)) == Tiles(g)
    decreases Room(g, pos, movement)
  {
    var next := RelativeCoord(pos, movement);
    var downstream := if At(g, next) == Empty then g else Pushed(g, next, movement);
    if At(g, next) != Empty {
      PushedKeepsTiles(g, next, movement);
      assert !OnRay(next, movement, pos);
    }
    MoveTileKeepsTiles(downstream, pos, next);
  }

  /** One movement of do_movements: a blocked move changes nothing; otherwise the run ahead is
      pushed and the robot advances one cell. */
  function Step(g: Grid, robot: Coord, movement: Movement): (Grid, Coord)
    requires Walled(g) && Interior(g, robot) && At(g, robot) == Robot
  {
    if CanMove(g, robot, movement) then (Pushed(g, robot, movement), RelativeCoord(robot, movement))
    else (g, robot)
  }

  /** After a step the robot is still inside the walls, standing where its tile went. */
  lemma StepKeepsRobot(g: Grid, robot: Coord, movement: Movement)
    requires Walled(g) && Interior(g, robot) && At(g, robot) == Robot
    ensures var (g', robot') := Step(g, robot, movement);
      Walled(g') && Interior(g', robot') && At(g', robot') == Robot && Tiles(g') == Tiles(g)
  {
    if CanMove(g, robot, movement) {
      PushedKeepsTiles(g, robot, movement);
      var g' := Pushed(g, robot, movement);
      var next := RelativeCoord(robot, movement);
      NonWallIsInterior(g', next);
    }
  }

  /** The whole movement list, folded over Step. */
  function Simulate(g: Grid, robot: Coord, movements: seq<Movement>): (r: (Grid, Coord))
    requires Walled(g) && Interior(g, robot) && At(g, robot) == Robot
    ensures Walled(r.0) && Interior(r.0, r.1) && At(r.0, r.1) == Robot && Tiles(r.0) == Tiles(g)
  {
    if movements == [] then (g, robot)
    else
      var (g', robot') := Simulate(g, robot, movements[..|movements| - 1]);
      StepKeepsRobot(g', robot', movements[|movements| - 1]);
      Step(g', robot', movements[|movements| - 1])
  }

  /** The robot's position: the first '@' in row-major order. */
  method FindRobot(grid: Grid) returns (robotPos: Option<Coord>)
    ensures robotPos.Some? ==>
      var (x, y) := robotPos.value;
      && 0 <= y < |grid| && 0 <= x < |grid[y]| && grid[y][x] == Robot
      && (forall y', x' :: 0 <= y' < y && 0 <= x' < |grid[y']| ==> grid[y'][x'] != Robot)
      && (forall x' :: 0 <= x' < x ==> grid[y][x'] != Robot)
    ensures robotPos.None? ==> forall y, x :: 0 <= y < |grid| && 0 <= x < |grid[y]| ==> grid[y][x] != Robot
  {
    robotPos := None;
    var y := 0;
    while y < |grid|
      invariant 0 <= y <= |grid|
      invariant forall y', x' :: 0 <= y' < y && 0 <= x' < |grid[y']| ==> grid[y'][x'] != Robot
    {
      var x := 0;
      while x < |grid[y]|
        invariant 0 <= x <= |grid[y]|
        invariant forall x' :: 0 <= x' < x ==> grid[y][x'] != Robot
      {
        if grid[y][x] == Robot {
          robotPos := Some((x, y));
          return;
        }
        x := x + 1;
      }
      y := y + 1;
    }
  }

  /** The warehouse grid, updated in place by the moves. */
  class Warehouse {
    var grid: Grid

    constructor (grid: Grid)
      ensures this.grid == grid
    {
      this.grid := grid;
    }

    /** do_move: pushes the downstream run first, then moves this tile into the freed cell. */
    method DoMove(pos: Coord, movement: Movement)
      requires Walled(grid) && Interior(grid, pos) && At(grid, pos) != Wall && CanMove(grid, pos, movement)
      modifies this
      ensures grid == Pushed(old(grid), pos, movement)
      decreases Room(grid, pos, movement)
    {
      var nextTile := RelativeCoord(pos, movement);
      var thisTile := grid[pos.1][pos.0];
      if grid[nextTile.1][nextTile.0] == Empty {
        grid := SetCell(grid, nextTile, thisTile);
        grid := SetCell(grid, pos, Empty);
        return;
      }
      DoMove(nextTile, movement);
      assert grid[nextTile.1][nextTile.0] == Empty;
      grid := SetCell(grid, nextTile, thisTile);
      grid := SetCell(grid, pos, Empty);
    }

    /** One movement of do_movements: the robot moves when can_move allows it. */
    method MoveOnce(robotPos: Coord, movement: Movement) returns (next: Coord)
      requires Walled(grid) && Interior(grid, robotPos) && At(grid, robotPos) == Robot
      modifies this
      ensures (grid, next) == Step(old(grid), robotPos, movement)
    {
      next := robotPos;
      if CanMove(grid, robotPos, movement) {
        DoMove(robotPos, movement);
        next := RelativeCoord(robotPos, movement);
      }
    }

    /** do_movements: the movements in order, each through MoveOnce. */
    method DoMovements(movements: seq<Movement>, robotStart: Coord) returns (robotPos: Coord)
      requires Walled(grid) && Interior(grid, robotStart) && At(grid, robotStart) == Robot
      modifies this
      ensures (grid, robotPos) == Simulate(old(grid), robotStart, movements)
    {
      ghost var start := grid;
      robotPos := robotStart;
      var i := 0;
      while i < |movements|
        invariant 0 <= i <= |movements|
        invariant (grid, robotPos) == Simulate(start, robotStart, movements[..i])
      {
        SimulateSnoc(start, robotStart, movements, i);
        robotPos := MoveOnce(robotPos, movements[i]);
        i := i + 1;
      }
      assert movements[..i] == movements;
    }
  }

  /** The movements up to i + 1 are those up to i and then one more step. */
  lemma SimulateSnoc(g: Grid, robot: Coord, movements: seq<Movement>, i: int)
    requires Walled(g) && Interior(g, robot) && At(g, robot) == Robot && 0 <= i < |movements|
    ensures var (g', robot') := Simulate(g, robot, movements[..i]);
      Simulate(g, robot, movements[..i + 1]) == Step(g', robot', movements[i])
  {
    assert movements[..i + 1][..i] == movements[..i];
  }

  // ---- The GPS sum ----

  /** The GPS coordinates of the boxes in one row. */
  function RowGps(row: seq<char>, y: int): int
  {
    if row == [] then 0
    else RowGps(row[..|row| - 1], y) + (if row[|row| - 1] == Box then RowWeight * y + |row| - 1 else 0)
  }

  function Gps(g: Grid): int
  {
    if g == [] then 0 else Gps(g[..|g| - 1]) + RowGps(g[|g| - 1], |g| - 1)
  }

  /** A row's GPS total counts each box's column once, plus 100 times the row per box. */
  lemma {:induction false} RowGpsByBoxes(row: seq<char>, y: int)
    ensures RowGps(row, y) == RowWeight * y * multiset(row)[Box] + ColumnSum(row)
  {
    if row != [] {
      RowGpsByBoxes(row[..|row| - 1], y);
      assert row == row[..|row| - 1] + [row[|row| - 1]];
    }
  }

  /** The sum of the columns holding a box. */
  function ColumnSum(row: seq<char>): nat
  {
    if row == [] then 0 else ColumnSum(row[..|row| - 1]) + (if row[|row| - 1] == Box then |row| - 1 else 0)
  }

  /** calculate_gps_sum. */
  method CalculateGpsSum(grid: Grid) returns (s: int)
    ensures s == Gps(grid)
  {
    s := 0;
    var y := 0;
    while y < |grid|
      invariant 0 <= y <= |grid|
      invariant s == Gps(grid[..y])
    {
      assert grid[..y + 1][..y] == grid[..y];
      var x := 0;
      var rowSum := 0;
      while x < |grid[y]|
        invariant 0 <= x <= |grid[y]|
        invariant rowSum == RowGps(grid[y][..x], y)
      {
        assert grid[y][..x + 1][..x] == grid[y][..x];
        if grid[y][x] == Box {
          rowSum := rowSum + RowWeight * y + x;
        }
        x := x + 1;
      }
      assert grid[y][..x] == grid[y];
      s := s + rowSum;
      y := y + 1;
    }
    assert grid[..y] == grid;
  }
}
