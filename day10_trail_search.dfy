/** Hiking trails on a topographic map: trailheads are the height-0 cells, a trail climbs
    exactly one unit per orthogonal step and ends at height 9. */
module TrailSearch {

  /** A position is (x, y): column, then row. */
  type Pos = (int, int)
  type Grid = seq<seq<int>>

  /** The height a '.' cell parses to; such a cell is never climbed from or onto. */
  const Impassable := -1
  const Summit := 9

  datatype Option<T> = None | Some(value: T)

  /** '.' is impassable and a digit is its value; anything else does not parse. */
  function CellValue(ch: char): (r: Option<int>)
    ensures r.Some? ==> Impassable <= r.value <= Summit
    ensures r.Some? <==> (ch == '.' || '0' <= ch <= '9')
  {
    if ch == '.' then Some(Impassable)
    else if '0' <= ch <= '9' then Some(ch as int - '0' as int)
    else None
  }

  function ParseLine(line: string): (r: Option<seq<int>>)
    ensures r.Some? ==> |r.value| == |line| && forall x :: 0 <= x < |line| ==> CellValue(line[x]) == Some(r.value[x])
  {
    if line == [] then Some([])
    else
      match (ParseLine(line[..|line| - 1]), CellValue(line[|line| - 1]))
      case (Some(row), Some(v)) => Some(row + [v])
      case _ => None
  }

  function ParseGrid(lines: seq<string>): (r: Option<Grid>)
    ensures r.Some? ==> |r.value| == |lines| && forall y :: 0 <= y < |lines| ==> ParseLine(lines[y]) == Some(r.value[y])
  {
    if lines == [] then Some([])
    else
      match (ParseGrid(lines[..|lines| - 1]), ParseLine(lines[|lines| - 1]))
      case (Some(rows), Some(row)) => Some(rows + [row])
      case _ => None
  }

  /** The searches index rows by the first row's width, so they need a rectangular map. */
  predicate Rect(g: Grid)
  {
    |g| > 0 && forall y :: 0 <= y < |g| ==> |g[y]| == |g[0]|
  }

  predicate Heights(g: Grid)
  {
    forall y, x :: 0 <= y < |g| && 0 <= x < |g[y]| ==> Impassable <= g[y][x] <= Summit
  }

  lemma ParsedHeights(lines: seq<string>)
    requires ParseGrid(lines).Some?
    ensures Heights(ParseGrid(lines).value)
  {
    var g := ParseGrid(lines).value;
    forall y, x | 0 <= y < |g| && 0 <= x < |g[y]| ensures Impassable <= g[y][x] <= Summit {
      assert CellValue(lines[y][x]) == Some(g[y][x]);
    }
  }

  predicate Valid(g: Grid)
  {
    Rect(g) && Heights(g)
  }

  predicate InGrid(g: Grid, p: Pos)
    requires Rect(g)
  {
    0 <= p.1 < |g| && 0 <= p.0 < |g[0]|
  }

  function Height(g: Grid, p: Pos): int
    requires Rect(g) && InGrid(g, p)
  {
    g[p.1][p.0]
  }

  // ---- Trailhead discovery ----

  predicate IsTrailhead(g: Grid, p: Pos)
  {
    0 <= p.1 < |g| && 0 <= p.0 < |g[p.1]| && g[p.1][p.0] == 0
  }

  /** Row-major order: by row, then by column. */
  predicate Before(p: Pos, q: Pos)
  {
    p.1 < q.1 || (p.1 == q.1 && p.0 < q.0)
  }

  /** The trailhead scan: every height-0 cell, each once, in row-major order. */
  method FindTrailheads(g: Grid) returns (locs: seq<Pos>)
    ensures forall p :: p in locs <==> IsTrailhead(g, p)
    ensures forall i, j :: 0 <= i < j < |locs| ==> Before(locs[i], locs[j])
  {
    locs := [];
    var y := 0;
    while y < |g|
      invariant 0 <= y <= |g|
      invariant forall p :: p in locs <==> (IsTrailhead(g, p) && p.1 < y)
      invariant forall i, j :: 0 <= i < j < |locs| ==> Before(locs[i], locs[j])
      invariant forall i :: 0 <= i < |locs| ==> locs[i].1 < y
    {
      var x := 0;
      while x < |g[y]|
        invariant 0 <= x <= |g[y]|
        invariant forall p :: p in locs <==> (IsTrailhead(g, p) && (p.1 < y || (p.1 == y && p.0 < x)))
        invariant forall i, j :: 0 <= i < j < |locs| ==> Before(locs[i], locs[j])
        invariant forall i :: 0 <= i < |locs| ==> Before(locs[i], (x, y))
      {
        if g[y][x] == 0 {
          locs := locs + [(x, y)];
        }
        x := x + 1;
      }
      y := y + 1;
    }
  }

  // ---- Climbing steps ----

  datatype Dir = Left | Right | Up | Down

  function Move(p: Pos, d: Dir): Pos
  {
    match d
    case Left => (p.0 - 1, p.1)
    case Right => (p.0 + 1, p.1)
    case Up => (p.0, p.1 - 1)
    case Down => (p.0, p.1 + 1)
  }

  /** A cell a search extends from: neither a summit nor impassable. */
  predicate Climbs(g: Grid, p: Pos)
    requires Rect(g) && InGrid(g, p)
  {
    Height(g, p) != Summit && Height(g, p) != Impassable
  }

  /** The bounds checks of both searches, then the neighbour one unit higher. */
  predicate CanStep(g: Grid, p: Pos, d: Dir)
    requires Rect(g) && InGrid(g, p)
  {
    && Climbs(g, p)
    && (match d
        case Left => p.0 > 0
        case Right => p.0 < |g[0]| - 1
        case Up => p.1 > 0
        case Down => p.1 < |g| - 1)
    && Height(g, Move(p, d)) == Height(g, p) + 1
  }

  /** The neighbours pushed or explored from p, in the order left, right, up, down. */
  function Successors(g: Grid, p: Pos): (r: seq<Pos>)
    requires Rect(g) && InGrid(g, p)
    ensures forall d :: CanStep(g, p, d) ==> Move(p, d) in r
    ensures forall q :: q in r ==> exists d :: CanStep(g, p, d) && Move(p, d) == q
  {
    (if CanStep(g, p, Left) then [Move(p, Left)] else [])
    + (if CanStep(g, p, Right) then [Move(p, Right)] else [])
    + (if CanStep(g, p, Up) then [Move(p, Up)] else [])
    + (if CanStep(g, p, Down) then [Move(p, Down)] else [])
  }

  // ---- Reachable cells and the score ----

  /** The cells a climb from p can reach, p included. */
  function Reach(g: Grid, p: Pos): (r: set<Pos>)
    requires Valid(g) && InGrid(g, p)
    ensures p in r && forall c :: c in r ==> InGrid(g, c)
    decreases Summit - Height(g, p), 1
  {
    {p} + ReachVia(g, p, Left) + ReachVia(g, p, Right) + ReachVia(g, p, Up) + ReachVia(g, p, Down)
  }

  function ReachVia(g: Grid, p: Pos, d: Dir): (r: set<Pos>)
    requires Valid(g) && InGrid(g, p)
    ensures forall c :: c in r ==> InGrid(g, c)
    decreases Summit - Height(g, p), 0
  {
    if CanStep(g, p, d) then Reach(g, Move(p, d)) else {}
  }

  /** The summits reachable from p: the score of a trailhead. */
  function Nines(g: Grid, p: Pos): set<Pos>
    requires Valid(g) && InGrid(g, p)
  {
    set c | c in Reach(g, p) && Height(g, c) == Summit
  }

  /** Reach is closed under climbing steps. */
  lemma {:induction false} ReachStep(g: Grid, s: Pos, c: Pos, d: Dir)
    requires Valid(g) && InGrid(g, s) && c in Reach(g, s) && CanStep(g, c, d)
    ensures Move(c, d) in Reach(g, s)
    decreases Summit - Height(g, s)
  {
    if c != s {
      var d' :| d' in {Left, Right, Up, Down} && c in ReachVia(g, s, d');
      ReachStep(g, Move(s, d'), c, d);
    }
  }

  /** Any set holding p and closed under climbing steps holds everything reachable from p. */
  lemma {:induction false} ReachLeast(g: Grid, p: Pos, e: set<Pos>)
    requires Valid(g) && InGrid(g, p) && p in e
    requires forall c, d :: c in e && InGrid(g, c) && CanStep(g, c, d) ==> Move(c, d) in e
    ensures Reach(g, p) <= e
    decreases Summit - Height(g, p)
  {
    forall d | CanStep(g, p, d) ensures Reach(g, Move(p, d)) <= e {
      ReachLeast(g, Move(p, d), e);
    }
  }

  /** One of the neighbour pushes of get_num_reachable_trailheads. */
  method PushIfClimbs(g: Grid, current: Pos, d: Dir, stack: seq<Pos>) returns (r: seq<Pos>)
    requires Valid(g) && InGrid(g, current) && Climbs(g, current)
    ensures r == stack + (if CanStep(g, current, d) then [Move(current, d)] else [])
  {
    var val := g[current.1][current.0];
    var inBounds := match d
      case Left => current.0 > 0
      case Right => current.0 < |g[0]| - 1
      case Up => current.1 > 0
      case Down => current.1 < |g| - 1;
    r := stack;
    if inBounds {
      var coord := Move(current, d);
      if g[coord.1][coord.0] == val + 1 {
        r := r + [coord];
      }
    }
  }

  /** The neighbour pushes of get_num_reachable_trailheads: left, right, up, down. */
  method PushNeighbours(g: Grid, current: Pos, stack: seq<Pos>) returns (r: seq<Pos>)
    requires Valid(g) && InGrid(g, current) && Climbs(g, current)
    ensures r == stack + Successors(g, current)
  {
    r := PushIfClimbs(g, current, Left, stack);
    r := PushIfClimbs(g, current, Right, r);
    r := PushIfClimbs(g, current, Up, r);
    r := PushIfClimbs(g, current, Down, r);
  }

  function AllCells(g: Grid): set<Pos>
    requires Rect(g)
  {
    set x, y | 0 <= y < |g| && 0 <= x < |g[0]| :: (x, y)
  }

  /** Every successor of an explored cell is explored or still on the stack. */
  ghost predicate Closed(g: Grid, explored: set<Pos>, stack: seq<Pos>)
    requires Rect(g)
  {
    forall c, d :: c in explored && InGrid(g, c) && CanStep(g, c, d) ==> Move(c, d) in explored || Move(c, d) in stack
  }

  /** Popping a cell that was explored already keeps the stack closed. */
  lemma SkipKeepsClosed(g: Grid, explored: set<Pos>, stack: seq<Pos>, c: Pos)
    requires Rect(g) && Closed(g, explored, stack + [c]) && c in explored
    ensures Closed(g, explored, stack)
  {
  }

  /** Exploring a popped cell and pushing its successors keeps the stack closed. */
  lemma VisitKeepsClosed(g: Grid, explored: set<Pos>, stack: seq<Pos>, c: Pos)
    requires Rect(g) && InGrid(g, c) && Closed(g, explored, stack + [c])
    ensures Closed(g, explored + {c}, stack + (if Climbs(g, c) then Successors(g, c) else []))
  {
  }

  /** Exploring a new in-grid cell shrinks the set of unexplored cells. */
  lemma NewCellShrinks(g: Grid, explored: set<Pos>, c: Pos)
    requires Rect(g) && InGrid(g, c) && c !in explored
    ensures |AllCells(g) - (explored + {c})| < |AllCells(g) - explored|
  {
    assert c == (c.0, c.1);
    assert AllCells(g) - explored == (AllCells(g) - (explored + {c})) + {c};
  }

  /** The summits among a set of cells. */
  function SummitsIn(g: Grid, cells: set<Pos>): set<Pos>
    requires Rect(g) && forall c :: c in cells ==> InGrid(g, c)
  {
    set c | c in cells && Height(g, c) == Summit
  }

  lemma SummitsAdd(g: Grid, cells: set<Pos>, c: Pos)
    requires Rect(g) && InGrid(g, c) && forall c :: c in cells ==> InGrid(g, c)
    ensures SummitsIn(g, cells + {c}) == SummitsIn(g, cells) + (if Height(g, c) == Summit then {c} else {})
  {
  }

  /** get_num_reachable_trailheads: a depth-first search with an explicit stack and an
      explored set; it counts the distinct summits reachable from the start. */
  method Score(g: Grid, trailheadLoc: Pos) returns (n: nat)
    requires Valid(g) && InGrid(g, trailheadLoc)
    ensures n == |Nines(g, trailheadLoc)|
  {
    var explorationStack := [trailheadLoc];
    var exploredSet: set<Pos> := {};
    var nineLocations: set<Pos> := {};
    while |explorationStack| > 0
      invariant Searching(g, trailheadLoc, explorationStack, exploredSet, nineLocations)
      decreases |AllCells(g) - exploredSet|, |explorationStack|
    {
      explorationStack, exploredSet, nineLocations := ExploreTop(g, trailheadLoc, explorationStack, exploredSet, nineLocations);
    }
    ReachLeast(g, trailheadLoc, exploredSet);
    assert exploredSet == Reach(g, trailheadLoc);
    n := |nineLocations|;
  }

  /** The invariant of the search: everything met is reachable, the summits found are those
      explored, and nothing reachable is lost between the explored set and the stack. */
  ghost predicate Searching(g: Grid, start: Pos, stack: seq<Pos>, explored: set<Pos>, nines: set<Pos>)
    requires Valid(g) && InGrid(g, start)
  {
    && (forall c :: c in stack ==> c in Reach(g, start))
    && explored <= Reach(g, start)
    && nines == SummitsIn(g, explored)
    && (start in explored || start in stack)
    && Closed(g, explored, stack)
  }

  /** One iteration of the search: pop a cell; if it is new, explore it, record it if it is a
      summit, and otherwise push its climbing successors. */
  method ExploreTop(g: Grid, start: Pos, stack: seq<Pos>, explored: set<Pos>, nines: set<Pos>)
    returns (stack': seq<Pos>, explored': set<Pos>, nines': set<Pos>)
    requires Valid(g) && InGrid(g, start) && |stack| > 0
    requires Searching(g, start, stack, explored, nines)
    ensures Searching(g, start, stack', explored', nines')
    ensures |AllCells(g) - explored'| < |AllCells(g) - explored|
      || (explored' == explored && |stack'| < |stack|)
  {
    var currentLoc := stack[|stack| - 1];
    var rest := stack[..|stack| - 1];
    assert stack == rest + [currentLoc];
    stack', explored', nines' := rest, explored, nines;
    if currentLoc in explored {
      SkipKeepsClosed(g, explored, rest, currentLoc);
      return;
    }
    VisitKeepsClosed(g, explored, rest, currentLoc);
    NewCellShrinks(g, explored, currentLoc);
    SummitsAdd(g, explored, currentLoc);
    explored' := explored + {currentLoc};
    var val := g[currentLoc.1][currentLoc.0];
    if val == Summit {
      nines' := nines + {currentLoc};
      return;
    }
    if val == Impassable {
      return;
    }
    forall d | CanStep(g, currentLoc, d) ensures Move(currentLoc, d) in Reach(g, start) {
      ReachStep(g, start, currentLoc, d);
    }
    stack' := PushNeighbours(g, currentLoc, rest);
  }

  // ---- Trails and the rating ----

  /** The number of trails from p: 1 at a summit, else the sum over climbing steps. */
  function TrailCount(g: Grid, p: Pos): nat
    requires Valid(g) && InGrid(g, p)
    decreases Summit - Height(g, p), 1
  {
    if Height(g, p) == Summit then 1
    else CountVia(g, p, Left) + CountVia(g, p, Right) + CountVia(g, p, Up) + CountVia(g, p, Down)
  }

  function CountVia(g: Grid, p: Pos, d: Dir): nat
    requires Valid(g) && InGrid(g, p)
    decreases Summit - Height(g, p), 0
  {
    if CanStep(g, p, d) then TrailCount(g, Move(p, d)) else 0
  }

  /** A climbing step from a to b in some direction. */
  predicate Step(g: Grid, a: Pos, b: Pos)
    requires Rect(g) && InGrid(g, a)
  {
    || (CanStep(g, a, Left) && b == Move(a, Left))
    || (CanStep(g, a, Right) && b == Move(a, Right))
    || (CanStep(g, a, Up) && b == Move(a, Up))
    || (CanStep(g, a, Down) && b == Move(a, Down))
  }

  /** A hiking trail: it climbs one unit per orthogonal step and ends at the first summit. */
  predicate Hike(g: Grid, t: seq<Pos>)
    requires Rect(g)
  {
    && |t| > 0
    && (forall i :: 0 <= i < |t| ==> InGrid(g, t[i]))
    && (forall i :: 0 <= i < |t| - 1 ==> Step(g, t[i], t[i + 1]))
    && Height(g, t[|t| - 1]) == Summit
  }

  /** The trails from p, as sequences of positions. */
  function Trails(g: Grid, p: Pos): (r: set<seq<Pos>>)
    requires Valid(g) && InGrid(g, p)
    ensures forall t :: t in r ==> |t| > 0 && t[0] == p
    decreases Summit - Height(g, p), 1
  {
    if Height(g, p) == Summit then {[p]}
    else TrailsVia(g, p, Left) + TrailsVia(g, p, Right) + TrailsVia(g, p, Up) + TrailsVia(g, p, Down)
  }

  function TrailsVia(g: Grid, p: Pos, d: Dir): (r: set<seq<Pos>>)
    requires Valid(g) && InGrid(g, p)
    ensures forall t :: t in r ==> |t| > 1 && t[0] == p && t[1] == Move(p, d)
    decreases Summit - Height(g, p), 0
  {
    if CanStep(g, p, d) then set t | t in Trails(g, Move(p, d)) :: [p] + t else {}
  }

  lemma {:induction false} ConsCard(p: Pos, ts: set<seq<Pos>>)
    ensures |set t | t in ts :: [p] + t| == |ts|
    decreases |ts|
  {
    if ts != {} {
      var u :| u in ts;
      ConsCard(p, ts - {u});
      var rest := set t | t in ts - {u} :: [p] + t;
      assert (set t | t in ts :: [p] + t) == rest + {[p] + u};
      assert [p] + u !in rest by {
        forall t | t in ts - {u} ensures [p] + t != [p] + u {
          assert ([p] + t)[1..] == t;
          assert ([p] + u)[1..] == u;
        }
      }
    }
  }

  lemma DisjointUnionCard(a: set<seq<Pos>>, b: set<seq<Pos>>)
    requires a * b == {}
    ensures |a + b| == |a| + |b|
  {
    assert a + b - a == b by {
      forall x ensures x in a + b - a <==> x in b {
        if x in b { assert x !in a * b; }
      }
    }
  }

  lemma SubsetCard(a: set<Pos>, b: set<Pos>)
    requires a <= b
    ensures |a| <= |b|
  {
    assert b == a + (b - a);
  }

  /** The trail count is the number of trails. */
  lemma {:induction false} TrailCountCountsTrails(g: Grid, p: Pos)
    requires Valid(g) && InGrid(g, p)
    ensures |Trails(g, p)| == TrailCount(g, p)
    decreases Summit - Height(g, p)
  {
    if Height(g, p) != Summit {
      forall d ensures |TrailsVia(g, p, d)| == CountVia(g, p, d) {
        if CanStep(g, p, d) {
          TrailCountCountsTrails(g, Move(p, d));
          ConsCard(p, Trails(g, Move(p, d)));
        }
      }
      var l, r, u, w := TrailsVia(g, p, Left), TrailsVia(g, p, Right), TrailsVia(g, p, Up), TrailsVia(g, p, Down);
      DisjointUnionCard(l, r);
      DisjointUnionCard(l + r, u);
      DisjointUnionCard(l + r + u, w);
    }
  }

  /** Every trail is a hike, and every hike from p is one of the trails. */
  lemma {:induction false} TrailIsHike(g: Grid, p: Pos, t: seq<Pos>)
    requires Valid(g) && InGrid(g, p) && t in Trails(g, p)
    ensures Hike(g, t)
    decreases Summit - Height(g, p)
  {
    if Height(g, p) != Summit {
      var d :| d in {Left, Right, Up, Down} && t in TrailsVia(g, p, d);
      var tail :| tail in Trails(g, Move(p, d)) && t == [p] + tail;
      TrailIsHike(g, Move(p, d), tail);
      HikeCons(g, p, d, tail);
    }
  }

  /** A climbing step onto the start of a hike extends it to a hike. */
  lemma HikeCons(g: Grid, p: Pos, d: Dir, tail: seq<Pos>)
    requires Rect(g) && InGrid(g, p) && CanStep(g, p, d) && Hike(g, tail) && tail[0] == Move(p, d)
    ensures Hike(g, [p] + tail)
  {
    var t := [p] + tail;
    assert forall i :: 1 <= i < |t| ==> t[i] == tail[i - 1];
    assert Step(g, t[0], t[1]);
  }

  lemma {:induction false} HikeIsTrail(g: Grid, p: Pos, t: seq<Pos>)
    requires Valid(g) && InGrid(g, p) && Hike(g, t) && t[0] == p
    ensures t in Trails(g, p)
    decreases Summit - Height(g, p)
  {
    if |t| == 1 {
      assert t == [p];
    } else {
      assert Step(g, t[0], t[1]);
      var d :| d in {Left, Right, Up, Down} && CanStep(g, t[0], d) && t[1] == Move(t[0], d);
      var tail := t[1..];
      assert forall i :: 0 <= i < |tail| ==> tail[i] == t[i + 1];
      HikeIsTrail(g, Move(p, d), tail);
      assert t == [p] + tail;
      assert t in TrailsVia(g, p, d);
    }
  }

  /** The trails from p are exactly the hikes that start at p. */
  lemma TrailsAreHikes(g: Grid, p: Pos, t: seq<Pos>)
    requires Valid(g) && InGrid(g, p)
    ensures t in Trails(g, p) <==> (|t| > 0 && Hike(g, t) && t[0] == p)
  {
    if t in Trails(g, p) {
      TrailIsHike(g, p, t);
    } else if |t| > 0 && Hike(g, t) && t[0] == p {
      HikeIsTrail(g, p, t);
    }
  }

  lemma UnionCardBound(a: set<Pos>, b: set<Pos>)
    ensures |a + b| <= |a| + |b|
  {
    assert a + b == a + (b - a);
  }

  /** The score never exceeds the rating: every reachable summit ends at least one trail. */
  lemma {:induction false} ScoreAtMostRating(g: Grid, p: Pos)
    requires Valid(g) && InGrid(g, p)
    ensures |Nines(g, p)| <= TrailCount(g, p)
    decreases Summit - Height(g, p)
  {
    if Height(g, p) == Summit {
      NinesAtSummit(g, p);
    } else {
      forall d ensures |NinesVia(g, p, d)| <= CountVia(g, p, d) {
        if CanStep(g, p, d) {
          ScoreAtMostRating(g, Move(p, d));
        }
      }
      NinesSplit(g, p);
      FourCardBound(Nines(g, p), NinesVia(g, p, Left), NinesVia(g, p, Right), NinesVia(g, p, Up), NinesVia(g, p, Down));
    }
  }

  /** The summits reachable through a climbing step in direction d. */
  function NinesVia(g: Grid, p: Pos, d: Dir): set<Pos>
    requires Valid(g) && InGrid(g, p)
  {
    if CanStep(g, p, d) then Nines(g, Move(p, d)) else {}
  }

  lemma NinesAtSummit(g: Grid, p: Pos)
    requires Valid(g) && InGrid(g, p) && Height(g, p) == Summit
    ensures Nines(g, p) == {p}
  {
    assert forall d :: ReachVia(g, p, d) == {};
    assert Reach(g, p) == {p};
  }

  /** Below a summit, every summit reached goes through one of the four steps. */
  lemma NinesSplit(g: Grid, p: Pos)
    requires Valid(g) && InGrid(g, p) && Height(g, p) != Summit
    ensures Nines(g, p) <= NinesVia(g, p, Left) + NinesVia(g, p, Right) + NinesVia(g, p, Up) + NinesVia(g, p, Down)
  {
    forall c | c in Nines(g, p)
      ensures c in NinesVia(g, p, Left) + NinesVia(g, p, Right) + NinesVia(g, p, Up) + NinesVia(g, p, Down)
    {
      var d :| d in {Left, Right, Up, Down} && c in ReachVia(g, p, d);
      assert c in NinesVia(g, p, d);
    }
  }

  lemma FourCardBound(s: set<Pos>, a: set<Pos>, b: set<Pos>, c: set<Pos>, d: set<Pos>)
    requires s <= a + b + c + d
    ensures |s| <= |a| + |b| + |c| + |d|
  {
    SubsetCard(s, a + b + c + d);
    UnionCardBound(a, b);
    UnionCardBound(a + b, c);
    UnionCardBound(a + b + c, d);
  }

  /** The state of get_trailhead_rating: the path list shared by every call of `explore`
      (appended to, never popped) and the set of recorded paths. */
  class TrailRater {
    const grid: Grid
    var path: seq<Pos>
    var uniquePathsToNines: set<seq<Pos>>

    constructor (grid: Grid)
      ensures this.grid == grid && path == [] && uniquePathsToNines == {}
    {
      this.grid := grid;
      path := [];
      uniquePathsToNines := {};
    }

    /** Every recorded path is a prefix of the shared path. */
    predicate Recorded()
      reads this
    {
      forall t :: t in uniquePathsToNines ==> t <= path
    }

    /** explore: because the shared path only grows, each recorded tuple is longer than every
        earlier one, so each summit arrival adds one new entry: one per trail. */
    method Explore(currentLoc: Pos)
      requires Valid(grid) && InGrid(grid, currentLoc) && Recorded()
      modifies this
      ensures Recorded() && old(path) <= path
      ensures |uniquePathsToNines| == old(|uniquePathsToNines|) + TrailCount(grid, currentLoc)
      decreases Summit - Height(grid, currentLoc)
    {
      var val := grid[currentLoc.1][currentLoc.0];
      if val == Summit {
        path := path + [currentLoc];
        assert path !in uniquePathsToNines;
        uniquePathsToNines := uniquePathsToNines + {path};
        return;
      }
      if val == Impassable {
        return;
      }
      path := path + [currentLoc];
      ExploreVia(currentLoc, Left);
      ExploreVia(currentLoc, Right);
      ExploreVia(currentLoc, Up);
      ExploreVia(currentLoc, Down);
    }

    /** One of explore's four guarded recursive calls. */
    method ExploreVia(currentLoc: Pos, d: Dir)
      requires Valid(grid) && InGrid(grid, currentLoc) && Recorded()
      modifies this
      ensures Recorded() && old(path) <= path
      ensures |uniquePathsToNines| == old(|uniquePathsToNines|) + CountVia(grid, currentLoc, d)
      decreases Summit - Height(grid, currentLoc), 0
    {
      var val := grid[currentLoc.1][currentLoc.0];
      var inBounds := match d
        case Left => currentLoc.0 > 0
        case Right => currentLoc.0 < |grid[0]| - 1
        case Up => currentLoc.1 > 0
        case Down => currentLoc.1 < |grid| - 1;
      if val != Summit && val != Impassable && inBounds {
        var coord := Move(currentLoc, d);
        if grid[coord.1][coord.0] == val + 1 {
          Explore(coord);
        }
      }
    }
  }

  /** get_trailhead_rating: the number of distinct paths recorded, which is the trail count. */
  method Rating(g: Grid, trailheadLoc: Pos) returns (n: nat)
    requires Valid(g) && InGrid(g, trailheadLoc)
    ensures n == TrailCount(g, trailheadLoc) && n == |Trails(g, trailheadLoc)|
  {
    var rater := new TrailRater(g);
    rater.Explore(trailheadLoc);
    n := |rater.uniquePathsToNines|;
    TrailCountCountsTrails(g, trailheadLoc);
  }

  function SumScores(g: Grid, locs: seq<Pos>): nat
    requires Valid(g) && forall p :: p in locs ==> InGrid(g, p)
  {
    if locs == [] then 0 else SumScores(g, locs[..|locs| - 1]) + |Nines(g, locs[|locs| - 1])|
  }

  function SumRatings(g: Grid, locs: seq<Pos>): nat
    requires Valid(g) && forall p :: p in locs ==> InGrid(g, p)
  {
    if locs == [] then 0 else SumRatings(g, locs[..|locs| - 1]) + TrailCount(g, locs[|locs| - 1])
  }

  lemma {:induction false} ScoresAtMostRatings(g: Grid, locs: seq<Pos>)
    requires Valid(g) && forall p :: p in locs ==> InGrid(g, p)
    ensures SumScores(g, locs) <= SumRatings(g, locs)
  {
    if locs != [] {
      ScoresAtMostRatings(g, locs[..|locs| - 1]);
      ScoreAtMostRating(g, locs[|locs| - 1]);
    }
  }

  /** trailhead_sum and rating_sum over the trailheads found by the scan. */
  method TrailheadSums(g: Grid) returns (locs: seq<Pos>, trailheadSum: nat, ratingSum: nat)
    requires Valid(g)
    ensures forall p :: p in locs <==> IsTrailhead(g, p)
    ensures forall p :: p in locs ==> InGrid(g, p)
    ensures trailheadSum == SumScores(g, locs) && ratingSum == SumRatings(g, locs)
    ensures trailheadSum <= ratingSum
  {
    locs := FindTrailheads(g);
    assert forall p :: p in locs ==> InGrid(g, p);
    trailheadSum, ratingSum := 0, 0;
    var i := 0;
    while i < |locs|
      invariant 0 <= i <= |locs|
      invariant trailheadSum == SumScores(g, locs[..i]) && ratingSum == SumRatings(g, locs[..i])
    {
      assert locs[..i + 1][..i] == locs[..i];
      var s := Score(g, locs[i]);
      var r := Rating(g, locs[i]);
      trailheadSum, ratingSum := trailheadSum + s, ratingSum + r;
      i := i + 1;
    }
    assert locs[..i] == locs;
    ScoresAtMostRatings(g, locs);
  }
}
