/** Character mazes: locating a tile and the unit-step shortest distances over the open cells
    (simple_dijkstras_algorithm in 18/18.py and 20/20.py, find_char_in_grid in 16/16.py and
    20/20.py). Coordinates are (x, y), x indexing within a row. */
module MazeGrids {
  import opened ShortestPaths

  type Coord = (int, int)
  type Grid = seq<seq<char>>

  datatype Result<T> = Ok(value: T) | Err(msg: string)

  predicate InGrid(grid: Grid, p: Coord)
  {
    0 <= p.1 < |grid| && 0 <= p.0 < |grid[p.1]|
  }

  predicate At(grid: Grid, p: Coord, ch: char)
  {
    InGrid(grid, p) && grid[p.1][p.0] == ch
  }

  /** Row-major order: an earlier row, or the same row further left. */
  predicate Before(p: Coord, q: Coord)
  {
    p.1 < q.1 || (p.1 == q.1 && p.0 < q.0)
  }

  ghost predicate Occurs(grid: Grid, ch: char)
  {
    exists p :: At(grid, p, ch)
  }

  /** The first occurrence of ch in row-major order. */
  ghost predicate First(grid: Grid, p: Coord, ch: char)
  {
    At(grid, p, ch) && forall q :: At(grid, q, ch) ==> !Before(q, p)
  }

  /** find_char_in_grid: the first occurrence in row-major order; raises when the tile is
      absent. */
  method FindCharInGrid(ch: char, grid: Grid) returns (r: Result<Coord>)
    ensures r.Ok? ==> First(grid, r.value, ch)
    ensures r.Err? <==> !Occurs(grid, ch)
    ensures r.Err? ==> r.msg == "robot needs to be in grid"
  {
    var y := 0;
    while y < |grid|
      invariant 0 <= y <= |grid|
      invariant forall p :: At(grid, p, ch) ==> p.1 >= y
    {
      var x := 0;
      while x < |grid[y]|
        invariant 0 <= x <= |grid[y]|
        invariant forall p :: At(grid, p, ch) ==> p.1 > y || (p.1 == y && p.0 >= x)
      {
        if grid[y][x] == ch {
          return Ok((x, y));
        }
        x := x + 1;
      }
      y := y + 1;
    }
    return Err("robot needs to be in grid");
  }

  /** The cells that are not walls. */
  function Open(grid: Grid): set<Coord>
  {
    set y, x | 0 <= y < |grid| && 0 <= x < |grid[y]| && grid[y][x] != '#' :: (x, y)
  }

  lemma OpenMember(grid: Grid, p: Coord)
    ensures p in Open(grid) <==> InGrid(grid, p) && grid[p.1][p.0] != '#'
  {
    if InGrid(grid, p) && grid[p.1][p.0] != '#' {
      assert (p.0, p.1) == p;
    }
  }

  /** The table the searches start from: every open cell at the sentinel. */
  method InitDistances(grid: Grid) returns (distances: map<Coord, int>)
    ensures distances.Keys == Open(grid)
    ensures forall c :: c in distances ==> distances[c] == Infinity
  {
    distances := map[];
    var y := 0;
    while y < |grid|
      invariant 0 <= y <= |grid|
      invariant forall p :: p in distances <==> InGrid(grid, p) && grid[p.1][p.0] != '#' && p.1 < y
      invariant forall c :: c in distances ==> distances[c] == Infinity
    {
      var x := 0;
      while x < |grid[y]|
        invariant 0 <= x <= |grid[y]|
        invariant forall p :: p in distances <==> InGrid(grid, p) && grid[p.1][p.0] != '#' && Before(p, (x, y))
        invariant forall c :: c in distances ==> distances[c] == Infinity
      {
        if grid[y][x] != '#' {
          distances := distances[(x, y) := Infinity];
        }
        x := x + 1;
      }
      y := y + 1;
    }
    forall p ensures p in distances <==> p in Open(grid) {
      OpenMember(grid, p);
    }
  }

  /** DIRECTIONS: down, up, right, left, in the order the searches try them. */
  const Directions: seq<Coord> := [(0, 1), (0, -1), (1, 0), (-1, 0)]

  /** The four neighbours, one step each. */
  function UnitEdges(c: Coord): (r: seq<(Coord, nat)>)
    ensures |r| == |Directions|
    ensures forall k :: 0 <= k < |r| ==> r[k] == ((c.0 + Directions[k].0, c.1 + Directions[k].1), 1)
  {
    [((c.0, c.1 + 1), 1), ((c.0, c.1 - 1), 1), ((c.0 + 1, c.1), 1), ((c.0 - 1, c.1), 1)]
  }

  /** Every unit edge goes to an orthogonally adjacent cell. */
  lemma UnitEdgesAdjacent(c: Coord, k: nat)
    requires k < |UnitEdges(c)|
    ensures var n := UnitEdges(c)[k].0;
      (n.0 == c.0 && (n.1 - c.1 == 1 || c.1 - n.1 == 1)) || (n.1 == c.1 && (n.0 - c.0 == 1 || c.0 - n.0 == 1))
  {
  }

  /** On unit edges the cost of a walk is its number of steps. */
  lemma {:induction false} UnitCost(keys: set<Coord>, s: Coord, js: seq<nat>)
    requires Valid(UnitEdges, keys, s, js)
    ensures Cost(UnitEdges, s, js) == |js|
    decreases |js|
  {
    if js != [] {
      UnitCost(keys, UnitEdges(s)[js[0]].0, js[1..]);
    }
  }

  /** simple_dijkstras_algorithm: steps from start to every open cell, the sentinel where no
      walk through open cells leads; start is entered at 0 even when it is a wall. */
  method SimpleDijkstra(grid: Grid, start: Coord) returns (distances: map<Coord, int>)
    ensures distances.Keys == Open(grid) + {start}
    ensures distances[start] == 0
    ensures forall c :: c in distances ==> 0 <= distances[c] <= Infinity
    ensures forall c :: c in distances && distances[c] < Infinity ==> Reaches(UnitEdges, distances.Keys, start, c, distances[c])
    ensures NoCheaperWalk(UnitEdges, distances, start)
  {
    var initial := InitDistances(grid);
    ghost var expanded;
    distances, expanded := RunDijkstra(UnitEdges, initial, start);
  }
}
