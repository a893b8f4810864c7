/** The patrolling guard (6/day6.py): the guard walks straight ahead and turns right at every
    obstruction until it leaves the map or repeats a (position, direction) state; the number of
    distinct cells it stands on is counted, and each free cell is tried as an extra
    obstruction to count the placements that trap it in a loop. The map is the lab grid
    whose cells the program overwrites in place. */
module GuardWalk {

  datatype Option<T> = None | Some(value: T)

  datatype Result<T> = Ok(value: T) | Err(message: string)

  /** Facings, in the order the guard turns through them: ^ > v <. */
  datatype Dir = Up | Right | Down | Left

  /** A position (x, y): column, then row. */
  type Pos = (int, int)

  /** Turning right: ^ -> > -> v -> < -> ^. */
  function TurnRight(d: Dir): (r: Dir)
    ensures r != d
  {
    match d
    case Up => Right
    case Right => Down
    case Down => Left
    case Left => Up
  }

  /** Four right turns face the guard the way it started. */
  lemma FourTurnsAreIdentity(d: Dir)
    ensures TurnRight(TurnRight(TurnRight(TurnRight(d)))) == d
    ensures TurnRight(TurnRight(d)) != d
  {
  }

  /** The cell one step ahead. */
  function Ahead(p: Pos, d: Dir): (q: Pos)
    ensures (q.0 - p.0) * (q.0 - p.0) + (q.1 - p.1) * (q.1 - p.1) == 1
  {
    match d
    case Up => (p.0, p.1 - 1)
    case Right => (p.0 + 1, p.1)
    case Down => (p.0, p.1 + 1)
    case Left => (p.0 - 1, p.1)
  }

  /** Every row as long as the first. */
  predicate Rect(g: seq<seq<char>>)
  {
    |g| > 0 && forall r :: 0 <= r < |g| ==> |g[r]| == |g[0]|
  }

  predicate InGrid(g: seq<seq<char>>, p: Pos)
    requires Rect(g)
  {
    0 <= p.0 < |g[0]| && 0 <= p.1 < |g|
  }

  /** The cells that are not obstructions. */
  function OpenCells(g: seq<seq<char>>): set<Pos>
    requires Rect(g)
  {
    set x, y | 0 <= y < |g| && 0 <= x < |g[0]| && g[y][x] != '#' :: (x, y)
  }

  /** What walk_guard returns: the number of distinct cells visited and whether it looped; or
      that the step budget ran out first. */
  datatype WalkResult = Finished(visited: nat, loop: bool) | OutOfFuel

  /** The walk loop from a given state, one iteration (a turn or a step) per unit of fuel. */
  function WalkFrom(g: seq<seq<char>>, pos: Pos, dir: Dir, visited: set<Pos>, seen: set<(Pos, Dir)>, fuel: nat): WalkResult
    requires Rect(g) && InGrid(g, pos)
    decreases fuel
  {
    if fuel == 0 then OutOfFuel
    else
      var next := Ahead(pos, dir);
      if next.1 < 0 || next.1 == |g| || next.0 < 0 || next.0 == |g[0]| then Finished(|visited|, false)
      else if g[next.1][next.0] == '#' then WalkFrom(g, pos, TurnRight(dir), visited, seen, fuel - 1)
      else if (next, dir) in seen then Finished(|visited|, true)
      else WalkFrom(g, next, dir, visited + {next}, seen + {(next, dir)}, fuel - 1)
  }

  /** walk_guard: the guard starts facing up, with its start recorded as visited and as a
      state. */
  function Walk(g: seq<seq<char>>, start: Pos, fuel: nat): WalkResult
    requires Rect(g) && InGrid(g, start)
  {
    WalkFrom(g, start, Up, {start}, {(start, Up)}, fuel)
  }

  /** The visited cells are open cells including the start, so the count is at least one and
      at most the number of open cells. */
  lemma {:induction false} WalkFromBounds(g: seq<seq<char>>, pos: Pos, dir: Dir, visited: set<Pos>, seen: set<(Pos, Dir)>, fuel: nat)
    requires Rect(g) && InGrid(g, pos) && pos in visited && visited <= OpenCells(g)
    ensures WalkFrom(g, pos, dir, visited, seen, fuel).Finished? ==>
      |visited| <= WalkFrom(g, pos, dir, visited, seen, fuel).visited <= |OpenCells(g)|
    decreases fuel
  {
    SubsetCard(visited, OpenCells(g));
    if fuel > 0 {
      var next := Ahead(pos, dir);
      if next.1 < 0 || next.1 == |g| || next.0 < 0 || next.0 == |g[0]| {
      } else if g[next.1][next.0] == '#' {
        WalkFromBounds(g, pos, TurnRight(dir), visited, seen, fuel - 1);
      } else if (next, dir) !in seen {
        assert next in OpenCells(g);
        SubsetCard(visited, visited + {next});
        WalkFromBounds(g, next, dir, visited + {next}, seen + {(next, dir)}, fuel - 1);
      }
    }
  }

  lemma SubsetCard(a: set<Pos>, b: set<Pos>)
    requires a <= b
    ensures |a| <= |b|
  {
    assert b == a + (b - a);
  }

  /** The guard stands on at least its start cell and never on more cells than are open. */
  lemma WalkBounds(g: seq<seq<char>>, start: Pos, fuel: nat)
    requires Rect(g) && InGrid(g, start) && g[start.1][start.0] != '#'
    ensures Walk(g, start, fuel).Finished? ==> 1 <= Walk(g, start, fuel).visited <= |OpenCells(g)|
  {
    assert start in OpenCells(g);
    WalkFromBounds(g, start, Up, {start}, {(start, Up)}, fuel);
  }

  /** A walk that finishes within some budget finishes the same way with any larger budget. */
  lemma {:induction false} MoreFuelSameResult(g: seq<seq<char>>, pos: Pos, dir: Dir, visited: set<Pos>, seen: set<(Pos, Dir)>, fuel: nat, more: nat)
    requires Rect(g) && InGrid(g, pos) && fuel <= more
    requires WalkFrom(g, pos, dir, visited, seen, fuel).Finished?
    ensures WalkFrom(g, pos, dir, visited, seen, more) == WalkFrom(g, pos, dir, visited, seen, fuel)
    decreases fuel
  {
    var next := Ahead(pos, dir);
    if next.1 < 0 || next.1 == |g| || next.0 < 0 || next.0 == |g[0]| {
    } else if g[next.1][next.0] == '#' {
      MoreFuelSameResult(g, pos, TurnRight(dir), visited, seen, fuel - 1, more - 1);
    } else if (next, dir) !in seen {
      MoreFuelSameResult(g, next, dir, visited + {next}, seen + {(next, dir)}, fuel - 1, more - 1);
    }
  }

  /** A guard boxed in by obstructions on all four sides turns for ever: no budget is
      enough. */
  lemma {:induction false} BoxedInNeverFinishes(g: seq<seq<char>>, pos: Pos, dir: Dir, visited: set<Pos>, seen: set<(Pos, Dir)>, fuel: nat)
    requires Rect(g) && InGrid(g, pos)
    requires forall d: Dir :: InGrid(g, Ahead(pos, d)) && g[Ahead(pos, d).1][Ahead(pos, d).0] == '#'
    ensures WalkFrom(g, pos, dir, visited, seen, fuel) == OutOfFuel
    decreases fuel
  {
    if fuel > 0 {
      BoxedInNeverFinishes(g, pos, TurnRight(dir), visited, seen, fuel - 1);
    }
  }

  /** The first position of x in s. */
  function FirstIndex(s: seq<char>, x: char): (i: nat)
    requires x in s
    ensures i < |s| && s[i] == x && forall k :: 0 <= k < i ==> s[k] != x
  {
    if s[0] == x then 0 else 1 + FirstIndex(s[1..], x)
  }

  /** A row with its first '^', if any, replaced by '.'. */
  function ClearRow(row: seq<char>): (r: seq<char>)
    ensures |r| == |row|
  {
    if '^' in row then row[FirstIndex(row, '^') := '.'] else row
  }

  /** The lab map and its guard. */
  class Lab {
    var cells: seq<seq<char>>

    constructor (cells: seq<seq<char>>)
      ensures this.cells == cells
    {
      this.cells := cells;
    }

    /** The start search: every row holding a '^' has its first '^' replaced by '.', and the
        position kept is that of the last such row; the source then asserts one was found. */
    method FindGuard() returns (guard: Option<Pos>)
      modifies this
      ensures |cells| == |old(cells)|
      ensures forall r :: 0 <= r < |cells| ==> cells[r] == ClearRow(old(cells)[r])
      ensures guard.None? <==> forall r :: 0 <= r < |cells| ==> '^' !in old(cells)[r]
      ensures guard.Some? ==>
        var (x, y) := guard.value;
        && 0 <= y < |cells| && '^' in old(cells)[y] && x == FirstIndex(old(cells)[y], '^')
        && (forall r :: y < r < |cells| ==> '^' !in old(cells)[r])
        && x < |cells[y]| && cells[y][x] == '.'
    {
      guard := None;
      var y := 0;
      while y < |cells|
        invariant 0 <= y <= |cells| == |old(cells)|
        invariant forall r :: 0 <= r < y ==> cells[r] == ClearRow(old(cells)[r])
        invariant forall r :: y <= r < |cells| ==> cells[r] == old(cells)[r]
        invariant guard.None? <==> forall r :: 0 <= r < y ==> '^' !in old(cells)[r]
        invariant guard.Some? ==>
          var (gx, gy) := guard.value;
          && 0 <= gy < y && '^' in old(cells)[gy] && gx == FirstIndex(old(cells)[gy], '^')
          && (forall r :: gy < r < y ==> '^' !in old(cells)[r])
          && cells[gy][gx] == '.'
      {
        var line := cells[y];
        if '^' in line {
          var x := FirstIndex(line, '^');
          guard := Some((x, y));
          cells := cells[y := line[x := '.']];
        }
        y := y + 1;
      }
    }

    /** walk_guard on the current map, with a budget of `fuel` loop iterations. */
    method WalkGuard(start: Pos, fuel: nat) returns (r: WalkResult)
      requires Rect(cells) && InGrid(cells, start)
      ensures r == Walk(cells, start, fuel)
    {
      var pos := start;
      var dir := Up;
      var visited := {start};
      var seen := {(start, Up)};
      var remaining: nat := fuel;
      while remaining > 0
        invariant remaining <= fuel && InGrid(cells, pos)
        invariant WalkFrom(cells, pos, dir, visited, seen, remaining) == Walk(cells, start, fuel)
      {
        var next := Ahead(pos, dir);
        if next.1 < 0 || next.1 == |cells| {
          return Finished(|visited|, false);
        }
        if next.0 < 0 || next.0 == |cells[0]| {
          return Finished(|visited|, false);
        }
        if cells[next.1][next.0] == '#' {
          dir := TurnRight(dir);
          remaining := remaining - 1;
          continue;
        }
        if (next, dir) in seen {
          return Finished(|visited|, true);
        }
        pos := next;
        visited := visited + {pos};
        seen := seen + {(pos, dir)};
        remaining := remaining - 1;
      }
      return OutOfFuel;
    }

    /** The obstruction trials, column by column: every cell other than the start and the
        obstructions is made an obstruction, the guard is walked, and the cell is set back to
        '.'. On a map of '.' and '#' cells the map ends as it began. */
    method CountObstructionLoops(start: Pos, fuel: nat) returns (r: Result<nat>)
      requires Rect(cells) && InGrid(cells, start) && AllClear(cells)
      modifies this
      ensures cells == old(cells)
      ensures r == LoopCount(cells, start, fuel, |cells[0]|)
    {
      var numLoops := 0;
      var x := 0;
      while x < |cells[0]|
        invariant cells == old(cells)
        invariant 0 <= x <= |cells[0]|
        invariant LoopCount(cells, start, fuel, x) == Ok(numLoops)
      {
        var inColumn := ColumnTrials(start, fuel, x);
        if inColumn.Err? {
          LoopErrorStops(cells, start, fuel, x + 1);
          return inColumn;
        }
        numLoops := numLoops + inColumn.value;
        x := x + 1;
      }
      return Ok(numLoops);
    }

    /** The trials of one column, top to bottom, stopping at the first walk out of fuel. */
    method ColumnTrials(start: Pos, fuel: nat, x: int) returns (r: Result<nat>)
      requires Rect(cells) && InGrid(cells, start) && AllClear(cells) && 0 <= x < |cells[0]|
      modifies this
      ensures cells == old(cells)
      ensures r == ColumnLoops(cells, start, fuel, x, |cells|)
    {
      var y := 0;
      var inColumn := 0;
      while y < |cells|
        invariant cells == old(cells)
        invariant 0 <= y <= |cells|
        invariant ColumnLoops(cells, start, fuel, x, y) == Ok(inColumn)
      {
        if (x, y) == start || cells[y][x] == '#' {
          y := y + 1;
          continue;
        }
        var walk := TryObstruction(start, fuel, x, y);
        if walk.OutOfFuel? {
          ColumnErrorStops(cells, start, fuel, x, y + 1);
          return Err("out of fuel");
        }
        if walk.loop {
          inColumn := inColumn + 1;
        }
        y := y + 1;
      }
      return Ok(inColumn);
    }

    /** One trial: (x, y) becomes '#', the guard is walked, and the cell is set back to '.'. */
    method TryObstruction(start: Pos, fuel: nat, x: int, y: int) returns (walk: WalkResult)
      requires Rect(cells) && InGrid(cells, start) && InGrid(cells, (x, y)) && cells[y][x] == '.'
      modifies this
      ensures cells == old(cells)
      ensures walk == Walk(Block(cells, x, y), start, fuel)
    {
      ghost var original := cells;
      cells := cells[y := cells[y][x := '#']];
      walk := WalkGuard(start, fuel);
      cells := cells[y := cells[y][x := '.']];
      assert cells[y] == original[y];
    }
  }

  /** The map once the guard is taken off: only '.' and '#'. */
  predicate AllClear(g: seq<seq<char>>)
  {
    forall r, c :: 0 <= r < |g| && 0 <= c < |g[r]| ==> g[r][c] == '.' || g[r][c] == '#'
  }

  /** The map with an obstruction at (x, y). */
  function Block(g: seq<seq<char>>, x: int, y: int): (b: seq<seq<char>>)
    requires Rect(g) && InGrid(g, (x, y))
    ensures Rect(b) && |b| == |g| && |b[0]| == |g[0]|
  {
    g[y := g[y][x := '#']]
  }

  /** Whether an obstruction at (x, y) traps the guard; the start and existing obstructions
      are skipped. */
  function TrialLoops(g: seq<seq<char>>, start: Pos, fuel: nat, x: int, y: int): Result<bool>
    requires Rect(g) && InGrid(g, (x, y)) && InGrid(g, start)
  {
    if (x, y) == start || g[y][x] == '#' then Ok(false)
    else
      match Walk(Block(g, x, y), start, fuel)
      case OutOfFuel => Err("out of fuel")
      case Finished(_, loop) => Ok(loop)
  }

  /** Trapping obstructions in column x among the rows below `upto`. */
  function ColumnLoops(g: seq<seq<char>>, start: Pos, fuel: nat, x: int, upto: int): (r: Result<nat>)
    requires Rect(g) && InGrid(g, start) && 0 <= x < |g[0]| && 0 <= upto <= |g|
    ensures r.Ok? ==> r.value <= upto
  {
    if upto == 0 then Ok(0)
    else
      match ColumnLoops(g, start, fuel, x, upto - 1)
      case Err(m) => Err(m)
      case Ok(n) =>
        match TrialLoops(g, start, fuel, x, upto - 1)
        case Err(m) => Err(m)
        case Ok(loop) => Ok(if loop then n + 1 else n)
  }

  /** Trapping obstructions in the columns left of `upto`. */
  function LoopCount(g: seq<seq<char>>, start: Pos, fuel: nat, upto: int): (r: Result<nat>)
    requires Rect(g) && InGrid(g, start) && 0 <= upto <= |g[0]|
  {
    if upto == 0 then Ok(0)
    else
      match LoopCount(g, start, fuel, upto - 1)
      case Err(m) => Err(m)
      case Ok(n) =>
        match ColumnLoops(g, start, fuel, upto - 1, |g|)
        case Err(m) => Err(m)
        case Ok(c) => Ok(n + c)
  }

  lemma {:induction false} ColumnErrorStops(g: seq<seq<char>>, start: Pos, fuel: nat, x: int, upto: int)
    requires Rect(g) && InGrid(g, start) && 0 <= x < |g[0]| && 0 <= upto <= |g|
    requires ColumnLoops(g, start, fuel, x, upto).Err?
    ensures ColumnLoops(g, start, fuel, x, |g|) == ColumnLoops(g, start, fuel, x, upto)
    decreases |g| - upto
  {
    if upto < |g| {
      ColumnErrorStops(g, start, fuel, x, upto + 1);
    }
  }

  lemma {:induction false} LoopErrorStops(g: seq<seq<char>>, start: Pos, fuel: nat, upto: int)
    requires Rect(g) && InGrid(g, start) && 0 <= upto <= |g[0]|
    requires LoopCount(g, start, fuel, upto).Err?
    ensures LoopCount(g, start, fuel, |g[0]|) == LoopCount(g, start, fuel, upto)
    decreases |g[0]| - upto
  {
    if upto < |g[0]| {
      LoopErrorStops(g, start, fuel, upto + 1);
    }
  }
}
