/** The reindeer maze (16/16.py): a reindeer starts on S facing east and may step forward
    (cost 1) or turn a quarter in place (cost 1000). The lowest score to E is found by Dijkstra
    over (cell, facing) states, and a second solver searches routes depth first. */
module ReindeerMaze {
  import opened ShortestPaths
  import opened MazeGrids
  import opened IntSets

  // ---- Movements ----

  /** '^', 'v', '<' and '>'. */
  datatype Movement = Up | Down | Left | Right

  const AllMovements: set<Movement> := {Up, Down, Left, Right}

  /** get_relative_coord: exactly one cell in the named direction. */
  function RelativeCoord(pos: Coord, movement: Movement): (r: Coord)
    ensures movement == Up ==> r == (pos.0, pos.1 - 1)
    ensures movement == Down ==> r == (pos.0, pos.1 + 1)
    ensures movement == Left ==> r == (pos.0 - 1, pos.1)
    ensures movement == Right ==> r == (pos.0 + 1, pos.1)
  {
    match movement
    case Up => (pos.0, pos.1 - 1)
    case Down => (pos.0, pos.1 + 1)
    case Left => (pos.0 - 1, pos.1)
    case Right => (pos.0 + 1, pos.1)
  }

  /** reverse_direction: the opposite movement. */
  function ReverseDirection(movement: Movement): (r: Movement)
    ensures r != movement
  {
    match movement
    case Right => Left
    case Up => Down
    case Left => Right
    case Down => Up
  }

  lemma ReverseInvolution(movement: Movement)
    ensures ReverseDirection(ReverseDirection(movement)) == movement
  {
  }

  /** Stepping and stepping back returns to the same cell. */
  lemma ReverseStepsBack(pos: Coord, movement: Movement)
    ensures RelativeCoord(RelativeCoord(pos, movement), ReverseDirection(movement)) == pos
  {
  }

  /** get_valid_moves: every movement but the reverse of the previous one. */
  function ValidMoves(previousMovement: Movement): (r: seq<Movement>)
    ensures |r| == 3
    ensures forall m :: m in r <==> m != ReverseDirection(previousMovement)
    ensures forall i, j :: 0 <= i < j < |r| ==> r[i] != r[j]
  {
    match previousMovement
    case Right => [Up, Down, Right]
    case Up => [Up, Left, Right]
    case Left => [Up, Down, Left]
    case Down => [Down, Left, Right]
  }

  // ---- The state graph searched by Dijkstra ----

  type State = (Coord, Movement)

  /** Moving on in the facing direction steps one cell for 1; any other valid movement turns
      in place for 1000. */
  function MoveEdge(s: State, movement: Movement): (State, nat)
  {
    if movement == s.1 then ((RelativeCoord(s.0, movement), movement), 1) else ((s.0, movement), 1000)
  }

  function Edges(s: State): (r: seq<(State, nat)>)
    ensures |r| == 3 && forall k :: 0 <= k < 3 ==> r[k] == MoveEdge(s, ValidMoves(s.1)[k])
  {
    var moves := ValidMoves(s.1);
    [MoveEdge(s, moves[0]), MoveEdge(s, moves[1]), MoveEdge(s, moves[2])]
  }

  /** Every edge either steps straight on at cost 1 or turns a quarter in place at cost 1000. */
  lemma EdgeShape(s: State, k: nat)
    requires k < |Edges(s)|
    ensures var (t, w) := Edges(s)[k];
      || (w == 1 && t.1 == s.1 && t.0 == RelativeCoord(s.0, s.1))
      || (w == 1000 && t.0 == s.0 && t.1 != s.1 && t.1 != ReverseDirection(s.1))
  {
  }

  /** Every facing on every open cell. */
  ghost function MazeStates(grid: Grid): set<State>
  {
    set c, m | c in Open(grid) && m in AllMovements :: (c, m)
  }

  /** The facings of DIRECTIONS, in the order the table is filled. */
  const Facings: seq<Movement> := [Up, Right, Down, Left]

  lemma FacingsComplete(m: Movement)
    ensures m in Facings && m in AllMovements
  {
    match m
    case Up => assert Facings[0] == m;
    case Right => assert Facings[1] == m;
    case Down => assert Facings[2] == m;
    case Left => assert Facings[3] == m;
  }

  /** The initial table of dijkstras_algorithm: every facing on every open cell at the
      sentinel. */
  method InitStates(grid: Grid) returns (distances: map<State, int>)
    ensures distances.Keys == MazeStates(grid)
    ensures forall s :: s in distances ==> distances[s] == Infinity
  {
    var cells := InitDistances(grid);
    distances := map[];
    var y := 0;
    while y < |grid|
      invariant 0 <= y <= |grid|
      invariant forall s :: s in distances <==> s.0 in cells && s.0.1 < y
      invariant forall s :: s in distances ==> distances[s] == Infinity
    {
      var x := 0;
      while x < |grid[y]|
        invariant 0 <= x <= |grid[y]|
        invariant forall s :: s in distances <==> s.0 in cells && Before(s.0, (x, y))
        invariant forall s :: s in distances ==> distances[s] == Infinity
      {
        if grid[y][x] != '#' {
          var k := 0;
          while k < |Facings|
            invariant 0 <= k <= |Facings|
            invariant forall s :: s in distances <==> (s.0 in cells && Before(s.0, (x, y))) || (s.0 == (x, y) && s.1 in Facings[..k])
            invariant forall s :: s in distances ==> distances[s] == Infinity
          {
            distances := distances[((x, y), Facings[k]) := Infinity];
            k := k + 1;
          }
          OpenMember(grid, (x, y));
          assert Facings[..k] == Facings;
          forall m ensures m in Facings {
            FacingsComplete(m);
          }
        } else {
          OpenMember(grid, (x, y));
        }
        x := x + 1;
      }
      y := y + 1;
    }
    forall s ensures s in distances <==> s in MazeStates(grid) {
      OpenMember(grid, s.0);
      FacingsComplete(s.1);
      assert s == (s.0, s.1);
    }
  }

  /** n is the lowest score from s facing east to any facing on e: some walk through open cells
      costs n (when n is below the sentinel), and no walk that stays under the sentinel costs
      less. */
  ghost predicate LowestScore(grid: Grid, s: Coord, e: Coord, n: int)
  {
    var keys, st := MazeStates(grid), (s, Right);
    && 0 <= n <= Infinity
    && (n < Infinity ==> exists js :: Valid(Edges, keys, st, js) && End(Edges, st, js).0 == e && Cost(Edges, st, js) == n)
    && (forall js :: Valid(Edges, keys, st, js) && End(Edges, st, js).0 == e && Cost(Edges, st, js) < Infinity ==>
          n <= Cost(Edges, st, js))
  }

  /** The least of the four facings at e. */
  method MinOverFacings(distances: map<State, int>, e: Coord) returns (best: int)
    requires forall m :: (e, m) in distances
    ensures exists m :: best == distances[(e, m)]
    ensures forall m :: best <= distances[(e, m)]
  {
    best := distances[(e, Facings[0])];
    var k := 1;
    while k < |Facings|
      invariant 1 <= k <= |Facings|
      invariant exists m :: best == distances[(e, m)]
      invariant forall j :: 0 <= j < k ==> best <= distances[(e, Facings[j])]
    {
      if distances[(e, Facings[k])] < best {
        best := distances[(e, Facings[k])];
      }
      k := k + 1;
    }
    forall m ensures best <= distances[(e, m)] {
      assert m == Facings[match m case Up => 0 case Right => 1 case Down => 2 case Left => 3];
    }
  }

  lemma LowestScoreHolds(grid: Grid, s: Coord, e: Coord, distances: map<State, int>, best: int)
    requires distances.Keys == MazeStates(grid) && (e, Right) in distances
    requires forall c :: c in distances ==> 0 <= distances[c] <= Infinity
    requires forall c :: c in distances && distances[c] < Infinity ==> Reaches(Edges, distances.Keys, (s, Right), c, distances[c])
    requires NoCheaperWalk(Edges, distances, (s, Right))
    requires forall m :: (e, m) in distances
    requires (exists m :: best == distances[(e, m)]) && forall m :: best <= distances[(e, m)]
    ensures LowestScore(grid, s, e, best)
  {
    var keys, st := MazeStates(grid), (s, Right);
    var m :| best == distances[(e, m)];
    if best < Infinity {
      assert Reaches(Edges, keys, st, (e, m), best);
    }
    forall js | Valid(Edges, keys, st, js) && End(Edges, st, js).0 == e && Cost(Edges, st, js) < Infinity
      ensures best <= Cost(Edges, st, js)
    {
      var t := End(Edges, st, js);
      assert t == (e, t.1);
      assert distances[t] <= Cost(Edges, st, js);
    }
  }

  /** dijkstras_algorithm: the lowest score from the first S, facing east, to the first E;
      raises when either tile is missing. */
  method DijkstrasAlgorithm(grid: Grid) returns (r: Result<int>)
    ensures r.Err? <==> !Occurs(grid, 'S') || !Occurs(grid, 'E')
    ensures r.Ok? ==> exists s, e :: First(grid, s, 'S') && First(grid, e, 'E') && LowestScore(grid, s, e, r.value)
  {
    var initial := InitStates(grid);
    var initialPlayerPosition := FindCharInGrid('S', grid);
    if initialPlayerPosition.Err? {
      return Err(initialPlayerPosition.msg);
    }
    var s := initialPlayerPosition.value;
    OpenMember(grid, s);
    assert (s, Right) in initial;
    ghost var expanded;
    var distances;
    distances, expanded := RunDijkstra(Edges, initial, (s, Right));
    assert initial.Keys + {(s, Right)} == initial.Keys;
    var endPosition := FindCharInGrid('E', grid);
    if endPosition.Err? {
      return Err(endPosition.msg);
    }
    var e := endPosition.value;
    OpenMember(grid, e);
    forall m ensures (e, m) in distances {
      FacingsComplete(m);
    }
    var best := MinOverFacings(distances, e);
    LowestScoreHolds(grid, s, e, distances, best);
    return Ok(best);
  }

  // ---- find_highest_scoring_route ----

  /** A rectangular maze whose border cells are all walls. */
  predicate Walled(grid: Grid)
  {
    && |grid| >= 1
    && (forall y :: 0 <= y < |grid| ==> |grid[y]| == |grid[0]|)
    && (forall x :: 0 <= x < |grid[0]| ==> grid[0][x] == '#' && grid[|grid| - 1][x] == '#')
    && (forall y :: 0 <= y < |grid| ==> |grid[y]| >= 1 && grid[y][0] == '#' && grid[y][|grid[y]| - 1] == '#')
  }

  /** The tile at p, a wall outside the grid. */
  function Tile(grid: Grid, p: Coord): char
  {
    if InGrid(grid, p) then grid[p.1][p.0] else '#'
  }

  /** In a walled maze every neighbour of an open cell is inside the grid. */
  lemma WalledNeighbour(grid: Grid, pos: Coord, movement: Movement)
    requires Walled(grid) && InGrid(grid, pos) && grid[pos.1][pos.0] != '#'
    ensures InGrid(grid, RelativeCoord(pos, movement))
  {
    assert grid[pos.1][0] == '#' && grid[pos.1][|grid[pos.1]| - 1] == '#';
    assert grid[0][pos.0] == '#' && grid[|grid| - 1][pos.0] == '#';
  }

  /** A route the search can take from pos facing facing, avoiding the cells in avoid: it never
      steps onto a wall, reverses, or re-enters a cell, and ends on the first E it meets. */
  ghost predicate IsRoute(grid: Grid, pos: Coord, facing: Movement, avoid: set<Coord>, moves: seq<Movement>)
    decreases |moves|
  {
    if moves == [] then Tile(grid, pos) == 'E'
    else
      var m, n := moves[0], RelativeCoord(pos, moves[0]);
      && Tile(grid, pos) != 'E' && Tile(grid, pos) != '#'
      && m != ReverseDirection(facing)
      && Tile(grid, n) != '#' && n !in avoid && n != pos
      && IsRoute(grid, n, m, avoid + {pos}, moves[1..])
  }

  /** 1 for a straight step, 1001 for a step that turns first. */
  function RouteCost(facing: Movement, moves: seq<Movement>): nat
    decreases |moves|
  {
    if moves == [] then 0 else (if moves[0] == facing then 1 else 1001) + RouteCost(moves[0], moves[1..])
  }

  /** Avoiding more cells only removes routes. */
  lemma {:induction false} IsRouteAvoidsLess(grid: Grid, pos: Coord, facing: Movement, avoid: set<Coord>,
                                             avoid': set<Coord>, moves: seq<Movement>)
    requires IsRoute(grid, pos, facing, avoid', moves) && avoid <= avoid'
    ensures IsRoute(grid, pos, facing, avoid, moves)
    decreases |moves|
  {
    if moves != [] {
      IsRouteAvoidsLess(grid, RelativeCoord(pos, moves[0]), moves[0], avoid + {pos}, avoid' + {pos}, moves[1..]);
    }
  }

  function Cells(grid: Grid): set<Coord>
  {
    set y, x | 0 <= y < |grid| && 0 <= x < |grid[y]| :: (x, y)
  }

  lemma CellsMember(grid: Grid, p: Coord)
    ensures p in Cells(grid) <==> InGrid(grid, p)
  {
    if InGrid(grid, p) {
      assert (p.0, p.1) == p;
    }
  }

  function Members(path: seq<Coord>): set<Coord>
  {
    set q | q in path
  }

  lemma PathGrows(grid: Grid, path: seq<Coord>, longer: seq<Coord>, pos: Coord)
    requires Members(path) + {pos} <= Members(longer) <= Cells(grid) && pos !in path
    ensures |Cells(grid) - Members(longer)| < |Cells(grid) - Members(path)|
  {
    var all := Cells(grid);
    assert all - Members(path) == (all - Members(longer)) + (Members(longer) - Members(path));
    assert pos in Members(longer) - Members(path);
  }

  /** min(possible_scores): the least of a non-empty set of scores. */
  method MinOfScores(scores: set<int>) returns (m: int)
    requires scores != {}
    ensures m in scores && forall x :: x in scores ==> m <= x
  {
    var rest := scores;
    var seen: set<int> := {};
    m := AnyMember(scores);
    while rest != {}
      invariant rest + seen == scores
      invariant m in scores
      invariant forall y :: y in seen ==> m <= y
      decreases |rest|
    {
      var x := AnyMember(rest);
      if x < m {
        m := x;
      }
      rest := rest - {x};
      seen := seen + {x};
    }
  }

  ghost predicate ExploreProgress(grid: Grid, pos: Coord, previousMovement: Movement, cost: int, path: seq<Coord>,
                                  best: int, localPathCopy: seq<Coord>, best': int, possibleScores: set<int>,
                                  routes: map<int, seq<Movement>>)
  {
    && Members(path) + {pos} <= Members(localPathCopy) <= Cells(grid)
    && best' <= best
    && (forall sc :: sc in possibleScores ==>
          sc in routes && sc != -1 && best' <= sc && IsRoute(grid, pos, previousMovement, Members(path), routes[sc])
          && sc == cost + RouteCost(previousMovement, routes[sc]))
  }

  lemma ExploreStep(grid: Grid, pos: Coord, previousMovement: Movement, cost: int, path: seq<Coord>, best: int,
                    localPathCopy: seq<Coord>, best': int, possibleScores: set<int>, routes: map<int, seq<Movement>>,
                    movement: Movement, stepCost: int, sc: int, b: int, lp: seq<Coord>, r: seq<Movement>)
    requires ExploreProgress(grid, pos, previousMovement, cost, path, best, localPathCopy, best', possibleScores, routes)
    requires InGrid(grid, pos) && grid[pos.1][pos.0] != 'E' && grid[pos.1][pos.0] != '#'
    requires movement != ReverseDirection(previousMovement)
    requires stepCost == if movement == previousMovement then 1 else 1001
    requires var next := RelativeCoord(pos, movement);
      && InGrid(grid, next) && grid[next.1][next.0] != '#' && next !in localPathCopy
      && lp == (if grid[next.1][next.0] == 'E' then localPathCopy + [next] else localPathCopy)
      && b <= best'
      && (sc != -1 ==> b <= sc && IsRoute(grid, next, movement, Members(localPathCopy), r)
                       && sc == cost + stepCost + RouteCost(movement, r))
    ensures ExploreProgress(grid, pos, previousMovement, cost, path, best, lp, b,
                            if sc != -1 then possibleScores + {sc} else possibleScores,
                            if sc != -1 then routes[sc := [movement] + r] else routes)
  {
    var next := RelativeCoord(pos, movement);
    CellsMember(grid, next);
    if sc != -1 {
      IsRouteAvoidsLess(grid, next, movement, Members(path) + {pos}, Members(localPathCopy), r);
      assert ([movement] + r)[1..] == r;
      assert IsRoute(grid, pos, previousMovement, Members(path), [movement] + r);
    }
  }

  /** explore inside find_highest_scoring_route. The nonlocal best score is passed in and
      handed back; so is the caller's path list, onto which a call that reaches E appends E.
      A score other than -1 is the cost of a real route from pos avoiding path, and no lower
      than the best score on return. */
  method Explore(grid: Grid, pos: Coord, previousMovement: Movement, cost: int, path: seq<Coord>, best: int)
    returns (score: int, best': int, path': seq<Coord>, ghost route: seq<Movement>)
    requires Walled(grid) && InGrid(grid, pos) && pos !in path && Members(path) <= Cells(grid)
    ensures path' == if Tile(grid, pos) == 'E' then path + [pos] else path
    ensures best' <= best
    ensures score != -1 ==> best' <= score && IsRoute(grid, pos, previousMovement, Members(path), route)
                            && score == cost + RouteCost(previousMovement, route)
    decreases |Cells(grid) - Members(path)|, 1
  {
    var posContents := grid[pos.1][pos.0];
    if posContents == 'E' {
      best' := if cost < best then cost else best;
      return cost, best', path + [pos], [];
    }
    path' := path;
    best' := best;
    if cost > best' {
      return -1, best', path', [];
    }
    if posContents == '#' {
      return -1, best', path', [];
    }
    CellsMember(grid, pos);
    var localPathCopy := path + [pos];
    var possibleScores: set<int> := {};
    ghost var routes: map<int, seq<Movement>> := map[];
    var moves := ValidMoves(previousMovement);
    var i := 0;
    while i < |moves|
      invariant 0 <= i <= |moves|
      invariant ExploreProgress(grid, pos, previousMovement, cost, path, best, localPathCopy, best', possibleScores, routes)
    {
      best', localPathCopy, possibleScores, routes :=
        ExploreMove(grid, pos, previousMovement, cost, path, best, localPathCopy, best', possibleScores, routes, moves[i]);
      i := i + 1;
    }
    if possibleScores == {} {
      return -1, best', path', [];
    }
    score := MinOfScores(possibleScores);
    route := routes[score];
  }

  /** One turn of explore's loop over the moves: a step onto a wall or a cell already on the
      path is skipped; otherwise explore runs from the next cell and a score it finds is kept. */
  method ExploreMove(grid: Grid, pos: Coord, previousMovement: Movement, cost: int, path: seq<Coord>, best: int,
                     localPathCopy: seq<Coord>, best': int, possibleScores: set<int>, ghost routes: map<int, seq<Movement>>,
                     movement: Movement)
    returns (best'': int, lp: seq<Coord>, scores: set<int>, ghost routes': map<int, seq<Movement>>)
    requires Walled(grid) && InGrid(grid, pos) && pos !in path && Members(path) <= Cells(grid)
    requires grid[pos.1][pos.0] != 'E' && grid[pos.1][pos.0] != '#'
    requires movement != ReverseDirection(previousMovement)
    requires ExploreProgress(grid, pos, previousMovement, cost, path, best, localPathCopy, best', possibleScores, routes)
    ensures ExploreProgress(grid, pos, previousMovement, cost, path, best, lp, best'', scores, routes')
    decreases |Cells(grid) - Members(path)|, 0
  {
    var nextTileCoord := RelativeCoord(pos, movement);
    WalledNeighbour(grid, pos, movement);
    var nextTileContents := grid[nextTileCoord.1][nextTileCoord.0];
    if nextTileContents == '#' || nextTileCoord in localPathCopy {
      return best', localPathCopy, possibleScores, routes;
    }
    var stepCost := if movement == previousMovement then 1 else 1000 + 1;
    CellsMember(grid, nextTileCoord);
    CellsMember(grid, pos);
    PathGrows(grid, path, localPathCopy, pos);
    var sc, b, lp', r := Explore(grid, nextTileCoord, movement, cost + stepCost, localPathCopy, best');
    ExploreStep(grid, pos, previousMovement, cost, path, best, localPathCopy, best', possibleScores, routes,
                movement, stepCost, sc, b, lp', r);
    scores, routes' := possibleScores, routes;
    if sc != -1 {
      scores := possibleScores + {sc};
      routes' := routes[sc := [movement] + r];
    }
    best'', lp := b, lp';
  }

  /** find_highest_scoring_route: -1 or the score of a route from the first S facing east;
      raises when there is no S. */
  method FindHighestScoringRoute(grid: Grid) returns (r: Result<int>, ghost route: seq<Movement>)
    requires Walled(grid)
    ensures r.Err? <==> !Occurs(grid, 'S')
    ensures r.Ok? && r.value != -1 ==>
      exists s :: First(grid, s, 'S') && IsRoute(grid, s, Right, {}, route) && r.value == RouteCost(Right, route)
  {
    var bestKnownPath := 1_000_000_000_000_000_000;
    var initialPlayerPosition := FindCharInGrid('S', grid);
    if initialPlayerPosition.Err? {
      return Err(initialPlayerPosition.msg), [];
    }
    var s := initialPlayerPosition.value;
    var score, best, path;
    score, best, path, route := Explore(grid, s, Right, 0, [], bestKnownPath);
    assert Members([]) == {};
    return Ok(score), route;
  }
}
