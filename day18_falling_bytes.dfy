/** Falling bytes (18/18.py): bytes land one by one on a square memory grid, and a unit-step
    Dijkstra from the top-left corner measures the way to the bottom-right corner after each
    prefix of the fall, until the way is cut. */
module FallingBytes {
  import opened ShortestPaths
  import opened MazeGrids

  datatype Option<T> = None | Some(value: T)

  /** The memory grid of the puzzle input. */
  const MemorySize: nat := 71

  // ---- simulate_grid_after_timesteps ----

  /** Python list indexing: a negative index counts from the end; anything else outside the
      list raises IndexError. */
  function PyIndex(i: int, n: nat): (r: Option<nat>)
    ensures r.Some? <==> -(n as int) <= i < n
    ensures r.Some? ==> r.value < n && (r.value == i || r.value == i + n)
  {
    if 0 <= i < n then Some(i) else if -(n as int) <= i < 0 then Some(i + n) else None
  }

  /** The cell grid[coord[1]][coord[0]] addresses on a size-by-size grid. */
  function Landing(coord: Coord, size: nat): Option<Coord>
  {
    match (PyIndex(coord.0, size), PyIndex(coord.1, size))
    case (Some(x), Some(y)) => Some((x, y))
    case _ => None
  }

  function Min(a: int, b: int): int
  {
    if a <= b then a else b
  }

  /** Every one of the first timesteps bytes lands inside the grid. */
  ghost predicate InRange(coords: seq<Coord>, timesteps: nat, size: nat)
  {
    forall k :: 0 <= k < Min(timesteps, |coords|) ==> Landing(coords[k], size).Some?
  }

  /** The cells the first timesteps bytes land on (coords[:timesteps]). */
  ghost function Fallen(coords: seq<Coord>, timesteps: nat, size: nat): set<Coord>
  {
    set k | 0 <= k < Min(timesteps, |coords|) && Landing(coords[k], size).Some? :: Landing(coords[k], size).value
  }

  /** The grid after timesteps bytes: '#' on every fallen cell, '.' elsewhere. */
  ghost function GridAfter(coords: seq<Coord>, timesteps: nat, size: nat): Grid
  {
    seq(size, y => seq(size, x => if (x, y) in Fallen(coords, timesteps, size) then '#' else '.'))
  }

  /** One more byte adds its own landing cell and nothing else. */
  lemma FallenStep(coords: seq<Coord>, k: nat, size: nat)
    requires k < |coords| && Landing(coords[k], size).Some?
    ensures Fallen(coords, k + 1, size) == Fallen(coords, k, size) + {Landing(coords[k], size).value}
  {
    var a, b := Fallen(coords, k + 1, size), Fallen(coords, k, size) + {Landing(coords[k], size).value};
    forall c | c in a ensures c in b {
      var j :| 0 <= j < Min(k + 1, |coords|) && Landing(coords[j], size).Some? && Landing(coords[j], size).value == c;
      if j < k {
        assert c in Fallen(coords, k, size);
      }
    }
  }

  /** More bytes cover more cells. */
  lemma FallenGrows(coords: seq<Coord>, i: nat, j: nat, size: nat)
    requires i <= j
    ensures Fallen(coords, i, size) <= Fallen(coords, j, size)
  {
  }

  /** simulate_grid_after_timesteps without its printing: a size-by-size grid of '.', with '#'
      written on each of the first timesteps bytes in turn; a byte off the grid raises
      IndexError. */
  method SimulateGridAfterTimesteps(coords: seq<Coord>, timesteps: nat, gridSize: nat) returns (r: Result<Grid>)
    ensures r.Ok? <==> InRange(coords, timesteps, gridSize)
    ensures r.Ok? ==> r.value == GridAfter(coords, timesteps, gridSize)
  {
    var grid: Grid := seq(gridSize, y => seq(gridSize, x => '.'));
    var n := Min(timesteps, |coords|);
    var k := 0;
    while k < n
      invariant 0 <= k <= n
      invariant InRange(coords, k, gridSize)
      invariant |grid| == gridSize && forall y :: 0 <= y < gridSize ==> |grid[y]| == gridSize
      invariant forall y, x :: 0 <= y < gridSize && 0 <= x < gridSize ==>
        grid[y][x] == if (x, y) in Fallen(coords, k, gridSize) then '#' else '.'
    {
      var coord := coords[k];
      var row := PyIndex(coord.1, gridSize);
      var column := PyIndex(coord.0, gridSize);
      if row.None? || column.None? {
        return Err("list index out of range");
      }
      var y, x := row.value, column.value;
      grid := grid[y := grid[y][x := '#']];
      FallenStep(coords, k, gridSize);
      k := k + 1;
    }
    var expected := GridAfter(coords, timesteps, gridSize);
    assert Fallen(coords, k, gridSize) == Fallen(coords, timesteps, gridSize);
    forall y | 0 <= y < gridSize ensures grid[y] == expected[y] {
    }
    return Ok(grid);
  }

  // ---- simple_dijkstras_algorithm ----

  /** The bottom-right corner, read as (len(grid) - 1, len(grid[0]) - 1). */
  function Target(grid: Grid): Coord
    requires |grid| > 0
  {
    (|grid| - 1, |grid[0]| - 1)
  }

  /** The states the search may enter: the open cells and the start (0, 0). */
  function Cells(grid: Grid): set<Coord>
  {
    Open(grid) + {(0, 0)}
  }

  /** No walk of fewer than Infinity steps through keys leads from (0, 0) to target. */
  ghost predicate BlockedIn(keys: set<Coord>, target: Coord)
  {
    forall js :: Valid(UnitEdges, keys, (0, 0), js) && End(UnitEdges, (0, 0), js) == target ==> |js| >= Infinity
  }

  /** No walk of fewer than Infinity steps through open cells leads from (0, 0) to the
      target. */
  ghost predicate Blocked(grid: Grid)
    requires |grid| > 0
  {
    BlockedIn(Cells(grid), Target(grid))
  }

  /** n is the least number of steps from (0, 0) to the target. */
  ghost predicate MinimumSteps(grid: Grid, n: int)
    requires |grid| > 0
  {
    && (exists js :: Valid(UnitEdges, Cells(grid), (0, 0), js) && End(UnitEdges, (0, 0), js) == Target(grid) && |js| == n)
    && (forall js :: Valid(UnitEdges, Cells(grid), (0, 0), js) && End(UnitEdges, (0, 0), js) == Target(grid) ==> n <= |js|)
  }

  /** simple_dijkstras_algorithm of 18/18.py: the steps from (0, 0) to the bottom-right corner,
      INFINITY_VALUE when no way leads there; an empty grid raises IndexError and a wall in the
      corner KeyError. */
  method SimpleDijkstrasAlgorithm(grid: Grid) returns (r: Result<int>)
    ensures r.Err? <==> |grid| == 0 || Target(grid) !in Cells(grid)
    ensures r.Ok? ==> 0 <= r.value <= Infinity
    ensures r.Ok? ==> (r.value == Infinity <==> Blocked(grid))
    ensures r.Ok? && r.value < Infinity ==> MinimumSteps(grid, r.value)
  {
    var distances := SimpleDijkstra(grid, (0, 0));
    if |grid| == 0 {
      return Err("list index out of range");
    }
    var target := (|grid| - 1, |grid[0]| - 1);
    if target !in distances {
      return Err("KeyError");
    }
    var steps := distances[target];
    ghost var keys := Cells(grid);
    assert distances.Keys == keys;
    forall js | Valid(UnitEdges, keys, (0, 0), js) && End(UnitEdges, (0, 0), js) == target && |js| < Infinity
      ensures steps <= |js|
    {
      UnitCost(keys, (0, 0), js);
    }
    if steps < Infinity {
      ghost var js :| Valid(UnitEdges, keys, (0, 0), js) && End(UnitEdges, (0, 0), js) == target && Cost(UnitEdges, (0, 0), js) == steps;
      UnitCost(keys, (0, 0), js);
    }
    return Ok(steps);
  }

  // ---- The scan for the first blocking byte ----

  /** The cells the search may enter after timesteps bytes: those no byte has landed on, and
      the start. */
  ghost function FreeCells(coords: seq<Coord>, timesteps: nat, size: nat): set<Coord>
  {
    (set y, x | 0 <= y < size && 0 <= x < size && (x, y) !in Fallen(coords, timesteps, size) :: (x, y)) + {(0, 0)}
  }

  lemma FreeCellsMember(coords: seq<Coord>, timesteps: nat, size: nat, c: Coord)
    ensures c in FreeCells(coords, timesteps, size) <==>
      c == (0, 0) || (0 <= c.0 < size && 0 <= c.1 < size && c !in Fallen(coords, timesteps, size))
  {
    if 0 <= c.0 < size && 0 <= c.1 < size && c !in Fallen(coords, timesteps, size) {
      assert (c.0, c.1) == c;
    }
  }

  /** The grid after timesteps bytes offers exactly the free cells, and its target is the
      corner (size - 1, size - 1). */
  lemma GridAfterCells(coords: seq<Coord>, timesteps: nat, size: nat)
    requires size > 0
    ensures var g := GridAfter(coords, timesteps, size);
      Target(g) == (size - 1, size - 1) && Cells(g) == FreeCells(coords, timesteps, size)
  {
    var g := GridAfter(coords, timesteps, size);
    forall c ensures c in Cells(g) <==> c in FreeCells(coords, timesteps, size) {
      OpenMember(g, c);
      FreeCellsMember(coords, timesteps, size, c);
    }
  }

  /** Step i of the scan runs without raising: every byte lands on the grid and the corner is
      free or the start. */
  ghost predicate StepRuns(coords: seq<Coord>, i: nat, size: nat)
  {
    size > 0 && InRange(coords, i, size) && (size - 1, size - 1) in FreeCells(coords, i, size)
  }

  /** Step i runs and finds no way through. */
  ghost predicate StepBlocked(coords: seq<Coord>, i: nat, size: nat)
  {
    StepRuns(coords, i, size) && BlockedIn(FreeCells(coords, i, size), (size - 1, size - 1))
  }

  /** Step i runs and finds a way through. */
  ghost predicate StepClear(coords: seq<Coord>, i: nat, size: nat)
  {
    StepRuns(coords, i, size) && !BlockedIn(FreeCells(coords, i, size), (size - 1, size - 1))
  }

  /** Every step before n runs and finds a way through. */
  ghost predicate ClearBefore(coords: seq<Coord>, n: nat, size: nat)
  {
    forall j :: 0 <= j < n ==> StepClear(coords, j, size)
  }

  lemma ClearBeforeStep(coords: seq<Coord>, i: nat, size: nat)
    requires ClearBefore(coords, i, size) && StepClear(coords, i, size)
    ensures ClearBefore(coords, i + 1, size)
  {
  }

  /** One turn of the scan: the grid after i bytes is built and searched; true when the
      search reports INFINITY_VALUE. */
  method ScanStep(coords: seq<Coord>, i: nat, size: nat) returns (r: Result<bool>)
    ensures r.Err? <==> !StepRuns(coords, i, size)
    ensures r.Ok? && r.value ==> StepBlocked(coords, i, size)
    ensures r.Ok? && !r.value ==> StepClear(coords, i, size)
  {
    var inputGrid := SimulateGridAfterTimesteps(coords, i, size);
    if inputGrid.Err? {
      return Err(inputGrid.msg);
    }
    if size > 0 {
      GridAfterCells(coords, i, size);
    }
    var minimumSteps := SimpleDijkstrasAlgorithm(inputGrid.value);
    if minimumSteps.Err? {
      return Err(minimumSteps.msg);
    }
    return Ok(minimumSteps.value == Infinity);
  }

  datatype ScanOutcome = NoBlock | BlockedAt(step: nat, byte: Coord)

  /** The loop at the end of 18/18.py over a size-by-size grid: for each i, the grid after i
      bytes is searched, and the first i with no way through stops the scan, reporting
      input_coords[i - 1] (the last byte when i is 0); its printing is left to the caller. */
  method FirstBlockingByte(coords: seq<Coord>, size: nat) returns (r: Result<ScanOutcome>)
    ensures r.Ok? && r.value.BlockedAt? ==>
      && r.value.step < |coords| && StepBlocked(coords, r.value.step, size)
      && r.value.byte == coords[if r.value.step == 0 then |coords| - 1 else r.value.step - 1]
    ensures r.Ok? ==> ClearBefore(coords, if r.value.NoBlock? then |coords| else r.value.step, size)
    ensures r.Err? ==> exists i :: 0 <= i < |coords| && !StepRuns(coords, i, size) && ClearBefore(coords, i, size)
  {
    var i := 0;
    while i < |coords|
      invariant 0 <= i <= |coords|
      invariant ClearBefore(coords, i, size)
    {
      var blocked := ScanStep(coords, i, size);
      if blocked.Err? {
        return Err(blocked.msg);
      }
      if blocked.value {
        return Ok(BlockedAt(i, coords[if i == 0 then |coords| - 1 else i - 1]));
      }
      ClearBeforeStep(coords, i, size);
      i := i + 1;
    }
    return Ok(NoBlock);
  }

  /** The scan over the puzzle's 71-by-71 memory. */
  method ScanMemory(coords: seq<Coord>) returns (r: Result<ScanOutcome>)
    ensures r.Ok? && r.value.BlockedAt? ==>
      && r.value.step < |coords| && StepBlocked(coords, r.value.step, MemorySize)
      && r.value.byte == coords[if r.value.step == 0 then |coords| - 1 else r.value.step - 1]
    ensures r.Ok? ==> ClearBefore(coords, if r.value.NoBlock? then |coords| else r.value.step, MemorySize)
    ensures r.Err? ==> exists i :: 0 <= i < |coords| && !StepRuns(coords, i, MemorySize) && ClearBefore(coords, i, MemorySize)
  {
    r := FirstBlockingByte(coords, MemorySize);
  }

  // ---- Monotonicity of the fall ----

  /** Once the way is cut, more bytes never open it again. */
  lemma StaysBlocked(coords: seq<Coord>, i: nat, j: nat, size: nat)
    requires i <= j && BlockedIn(FreeCells(coords, i, size), (size - 1, size - 1))
    ensures BlockedIn(FreeCells(coords, j, size), (size - 1, size - 1))
  {
    var fi, fj := FreeCells(coords, i, size), FreeCells(coords, j, size);
    FallenGrows(coords, i, j, size);
    forall c | c in fj ensures c in fi {
      FreeCellsMember(coords, i, size, c);
      FreeCellsMember(coords, j, size, c);
    }
    forall js | Valid(UnitEdges, fj, (0, 0), js) && End(UnitEdges, (0, 0), js) == (size - 1, size - 1)
      ensures |js| >= Infinity
    {
      ValidWithin(UnitEdges, fj, fi, (0, 0), js);
    }
  }

  /** The scan reports the first blocked step, and every later step that runs is blocked
      too. */
  lemma ScanIsFirstBlock(coords: seq<Coord>, size: nat, i: nat, j: nat)
    requires StepBlocked(coords, i, size) && i <= j && StepRuns(coords, j, size)
    ensures StepBlocked(coords, j, size)
  {
    StaysBlocked(coords, i, j, size);
  }
}
