/** A garden of plots, each labelled with a plant. A region is a set of same-plant plots
    joined edge to edge. The model finds the regions by flood fill, measures each region's
    perimeter and counts its corners (its number of sides), and sums the fence prices. */
module GardenRegions {

  /** (x, y): x is the column, y the row. */
  type Coord = (int, int)
  type Grid = seq<seq<char>>
  type Region = set<Coord>

  datatype Direction = N | E | S | W

  /** The order in which every explorer tries the four directions. */
  const Directions: seq<Direction> := [N, E, S, W]
  const AllDirections: set<Direction> := {N, E, S, W}

  /** get_relative_coord: north is one row up. */
  function Step(c: Coord, d: Direction): Coord
  {
    match d
    case E => (c.0 + 1, c.1)
    case N => (c.0, c.1 - 1)
    case S => (c.0, c.1 + 1)
    case W => (c.0 - 1, c.1)
  }

  /** The next direction clockwise: the pairs the corner count looks at are (N, E), (E, S),
      (S, W) and (W, N). */
  function Clockwise(d: Direction): Direction
  {
    match d
    case N => E
    case E => S
    case S => W
    case W => N
  }

  /** Stepping one way and back again returns to the same plot. */
  function Opposite(d: Direction): (o: Direction)
    ensures forall c :: Step(Step(c, d), o) == c
  {
    match d
    case N => S
    case E => W
    case S => N
    case W => E
  }

  predicate Adjacent(a: Coord, b: Coord)
  {
    exists d :: d in AllDirections && Step(a, d) == b
  }

  lemma AdjacentSymmetric(a: Coord, b: Coord)
    requires Adjacent(a, b)
    ensures Adjacent(b, a)
  {
    var d :| d in AllDirections && Step(a, d) == b;
    assert Step(b, Opposite(d)) == a;
  }

  // ---- Paths and reachability inside a set of plots ----

  /** p walks from plot to adjacent plot and stays inside s. */
  ghost predicate IsPath(s: set<Coord>, p: seq<Coord>)
  {
    && |p| > 0
    && (forall k :: 0 <= k < |p| ==> p[k] in s)
    && (forall k :: 0 <= k < |p| - 1 ==> Adjacent(p[k], p[k + 1]))
  }

  ghost predicate Reachable(s: set<Coord>, a: Coord, b: Coord)
  {
    exists p :: IsPath(s, p) && p[0] == a && p[|p| - 1] == b
  }

  lemma ReachableRefl(s: set<Coord>, a: Coord)
    requires a in s
    ensures Reachable(s, a, a)
  {
    assert IsPath(s, [a]);
  }

  lemma ReachableEnds(s: set<Coord>, a: Coord, b: Coord)
    requires Reachable(s, a, b)
    ensures a in s && b in s
  {
    var p :| IsPath(s, p) && p[0] == a && p[|p| - 1] == b;
  }

  lemma ReachablePrepend(s: set<Coord>, a: Coord, b: Coord, c: Coord)
    requires a in s && Adjacent(a, b) && Reachable(s, b, c)
    ensures Reachable(s, a, c)
  {
    var p :| IsPath(s, p) && p[0] == b && p[|p| - 1] == c;
    var q := [a] + p;
    assert forall k :: 0 < k < |q| ==> q[k] == p[k - 1];
    assert IsPath(s, q);
  }

  lemma {:induction false} ReachableTrans(s: set<Coord>, a: Coord, b: Coord, c: Coord)
    requires Reachable(s, a, b) && Reachable(s, b, c)
    ensures Reachable(s, a, c)
  {
    var p :| IsPath(s, p) && p[0] == a && p[|p| - 1] == b;
    var q :| IsPath(s, q) && q[0] == b && q[|q| - 1] == c;
    PathConcat(s, p, q);
  }

  lemma {:induction false} PathConcat(s: set<Coord>, p: seq<Coord>, q: seq<Coord>)
    requires IsPath(s, p) && IsPath(s, q) && p[|p| - 1] == q[0]
    ensures Reachable(s, p[0], q[|q| - 1])
    decreases |p|
  {
    if |p| == 1 {
      assert IsPath(s, q) && q[0] == p[0];
    } else {
      assert IsPath(s, p[1..]);
      PathConcat(s, p[1..], q);
      ReachablePrepend(s, p[0], p[1], q[|q| - 1]);
    }
  }

  lemma {:induction false} ReachableSym(s: set<Coord>, a: Coord, b: Coord)
    requires Reachable(s, a, b)
    ensures Reachable(s, b, a)
  {
    var p :| IsPath(s, p) && p[0] == a && p[|p| - 1] == b;
    PathBack(s, p);
  }

  lemma {:induction false} PathBack(s: set<Coord>, p: seq<Coord>)
    requires IsPath(s, p)
    ensures Reachable(s, p[|p| - 1], p[0])
    decreases |p|
  {
    if |p| == 1 {
      ReachableRefl(s, p[0]);
    } else {
      var init := p[..|p| - 1];
      assert IsPath(s, init);
      PathBack(s, init);
      AdjacentSymmetric(p[|p| - 2], p[|p| - 1]);
      ReachablePrepend(s, p[|p| - 1], p[|p| - 2], p[0]);
    }
  }

  lemma {:induction false} ReachableMono(s: set<Coord>, t: set<Coord>, a: Coord, b: Coord)
    requires s <= t && Reachable(s, a, b)
    ensures Reachable(t, a, b)
  {
    var p :| IsPath(s, p) && p[0] == a && p[|p| - 1] == b;
    assert IsPath(t, p);
  }

  /** v is closed under adjacency within s: a step from v that stays in s stays in v. */
  ghost predicate ClosedAt(v: set<Coord>, s: set<Coord>, c: Coord)
  {
    forall d :: Step(c, d) in s ==> Step(c, d) in v
  }

  ghost predicate Closed(v: set<Coord>, s: set<Coord>)
  {
    forall c :: c in v ==> ClosedAt(v, s, c)
  }

  /** A closed set holding a contains everything reachable from a. */
  lemma {:induction false} ClosedHoldsReachable(v: set<Coord>, s: set<Coord>, a: Coord, b: Coord)
    requires Closed(v, s) && a in v && Reachable(s, a, b)
    ensures b in v
  {
    var p :| IsPath(s, p) && p[0] == a && p[|p| - 1] == b;
    PathStaysIn(v, s, p, |p| - 1);
  }

  lemma {:induction false} PathStaysIn(v: set<Coord>, s: set<Coord>, p: seq<Coord>, k: nat)
    requires Closed(v, s) && IsPath(s, p) && p[0] in v && k < |p|
    ensures p[k] in v
  {
    if k > 0 {
      PathStaysIn(v, s, p, k - 1);
      assert Adjacent(p[k - 1], p[k]);
      var d :| d in AllDirections && Step(p[k - 1], d) == p[k];
      assert ClosedAt(v, s, p[k - 1]);
    }
  }

  /** Everything reachable from a within s is reachable from a within the plots of s
      reachable from a. */
  lemma {:induction false} ReachableInsideComponent(s: set<Coord>, a: Coord, b: Coord, comp: set<Coord>)
    requires Reachable(s, a, b)
    requires forall c :: c in s && Reachable(s, a, c) ==> c in comp
    ensures Reachable(comp, a, b)
  {
    var p :| IsPath(s, p) && p[0] == a && p[|p| - 1] == b;
    forall k | 0 <= k < |p| ensures p[k] in comp {
      assert IsPath(s, p[..k + 1]);
      assert p[..k + 1][k] == p[k];
    }
    assert IsPath(comp, p);
  }

  /** Every plot of s can reach every other. */
  ghost predicate Connected(s: set<Coord>)
  {
    forall a, b :: a in s && b in s ==> Reachable(s, a, b)
  }

  // ---- The grid ----

  /** Rows of equal length, as read from the lines of the input. */
  predicate Rectangular(grid: Grid)
  {
    forall y :: 0 <= y < |grid| ==> |grid[y]| == |grid[0]|
  }

  function Width(grid: Grid): nat
  {
    if grid == [] then 0 else |grid[0]|
  }

  function Cells(grid: Grid): set<Coord>
  {
    set x: int, y: int | 0 <= y < |grid| && 0 <= x < Width(grid) :: (x, y)
  }

  /** The corrected bounds test: x against the row length, y against the number of rows. */
  predicate InGrid(grid: Grid, c: Coord)
  {
    0 <= c.0 < Width(grid) && 0 <= c.1 < |grid|
  }

  lemma InGridIsCell(grid: Grid, c: Coord)
    ensures InGrid(grid, c) <==> c in Cells(grid)
  {
    if InGrid(grid, c) {
      assert c == (c.0, c.1);
    }
  }

  /** get_region_elements' bounds test as written: x against the number of rows and y against
      the length of the first row. */
  predicate SourceGuard(grid: Grid, c: Coord)
  {
    c.0 >= 0 && c.0 < |grid| && c.1 >= 0 && (|grid| > 0 && c.1 < |grid[0]|)
  }

  /** On a square grid the test as written is the bounds test. */
  lemma SourceGuardOnSquare(grid: Grid, c: Coord)
    requires Rectangular(grid) && |grid| > 0 && |grid| == |grid[0]|
    ensures SourceGuard(grid, c) <==> InGrid(grid, c)
  {
  }

  /** On a grid of 2 rows and 3 columns the test as written refuses the plot (2, 0), which is
      in the grid, and on a grid of 3 rows and 2 columns it lets through (2, 0), which is past
      the end of its row, where reading the plant raises an index error. */
  lemma SourceGuardOnNonSquare()
    ensures var wide: Grid := ["AAA", "AAA"];
      InGrid(wide, (2, 0)) && !SourceGuard(wide, (2, 0))
    ensures var tall: Grid := ["AA", "AA", "AA"];
      SourceGuard(tall, (2, 0)) && 2 >= |tall[0]|
  {
  }

  function Label(grid: Grid, c: Coord): char
    requires Rectangular(grid) && c in Cells(grid)
  {
    InGridIsCell(grid, c);
    grid[c.1][c.0]
  }

  function SameLabel(grid: Grid, plant: char): (s: set<Coord>)
    requires Rectangular(grid)
    ensures s <= Cells(grid)
  {
    set c | c in Cells(grid) && Label(grid, c) == plant
  }

  /** The region of a plot: the plots with its plant reachable from it. */
  ghost function Component(grid: Grid, a: Coord): (r: Region)
    requires Rectangular(grid) && a in Cells(grid)
    ensures r <= SameLabel(grid, Label(grid, a))
  {
    set c | c in Cells(grid) && Reachable(SameLabel(grid, Label(grid, a)), a, c)
  }

  // ---- get_region_elements ----

  /** What the flood fill keeps true while it explores from pos: the set only gains plots of
      the plant, each reachable from pos, and each one whose exploration is finished has its
      same-plant neighbours in the set. */
  ghost predicate FillProgress(grid: Grid, plant: char, pos: Coord, region: Region, grown: Region, k: nat)
    requires Rectangular(grid)
  {
    var s := SameLabel(grid, plant);
    && k <= |Directions|
    && region + {pos} <= grown <= s
    && (forall j :: 0 <= j < k && Step(pos, Directions[j]) in s ==> Step(pos, Directions[j]) in grown)
    && (forall c :: c in grown - region ==> Reachable(s, pos, c))
    && (forall c :: c in grown - region && c != pos ==> ClosedAt(grown, s, c))
  }

  lemma FillStep(grid: Grid, plant: char, pos: Coord, region: Region, grown: Region, k: nat, grown': Region)
    requires Rectangular(grid) && FillProgress(grid, plant, pos, region, grown, k) && k < |Directions|
    requires var n, s := Step(pos, Directions[k]), SameLabel(grid, plant);
      && grown <= grown' <= s
      && (n in s ==> n in grown')
      && (forall c :: c in grown' - grown ==> Reachable(s, n, c) && ClosedAt(grown', s, c))
    ensures FillProgress(grid, plant, pos, region, grown', k + 1)
  {
    var n, s := Step(pos, Directions[k]), SameLabel(grid, plant);
    assert Adjacent(pos, n);
    forall c | c in grown' - region ensures Reachable(s, pos, c) {
      if c !in grown {
        ReachablePrepend(s, pos, n, c);
      }
    }
    forall c | c in grown' - region && c != pos ensures ClosedAt(grown', s, c) {
      if c in grown {
        assert ClosedAt(grown, s, c);
      }
    }
  }

  /** Adding a plot that was not there leaves fewer plots to explore. */
  lemma FillShrinks(all: set<Coord>, region: Region, grown: Region, pos: Coord)
    requires region + {pos} <= grown <= all && pos !in region
    ensures |all - grown| < |all - region|
  {
    assert all - region == (all - grown) + (grown - region);
    assert pos in grown - region;
  }

  lemma FillDone(grid: Grid, plant: char, pos: Coord, region: Region, grown: Region)
    requires Rectangular(grid) && FillProgress(grid, plant, pos, region, grown, |Directions|)
    ensures forall c :: c in grown - region ==> ClosedAt(grown, SameLabel(grid, plant), c)
  {
    var s := SameLabel(grid, plant);
    assert ClosedAt(grown, s, pos) by {
      forall d | Step(pos, d) in s ensures Step(pos, d) in grown {
        assert d == Directions[match d case N => 0 case E => 1 case S => 2 case W => 3];
      }
    }
  }

  /** explore inside get_region_elements: adds pos and, through its in-grid neighbours, every
      plot of the plant reachable from it that is not yet in the set. */
  method ExploreRegion(grid: Grid, originalRegion: char, pos: Coord, region: Region) returns (grown: Region)
    requires Rectangular(grid) && pos in Cells(grid) && region <= SameLabel(grid, originalRegion)
    ensures region <= grown <= SameLabel(grid, originalRegion)
    ensures pos in SameLabel(grid, originalRegion) ==> pos in grown
    ensures forall c :: c in grown - region ==>
      Reachable(SameLabel(grid, originalRegion), pos, c) && ClosedAt(grown, SameLabel(grid, originalRegion), c)
    decreases |Cells(grid) - region|
  {
    if pos in region {
      return region;
    }
    InGridIsCell(grid, pos);
    var r := grid[pos.1][pos.0];
    if r != originalRegion {
      return region;
    }
    grown := region + {pos};
    ReachableRefl(SameLabel(grid, originalRegion), pos);
    var k := 0;
    while k < |Directions|
      invariant FillProgress(grid, originalRegion, pos, region, grown, k)
    {
      var newCoord := Step(pos, Directions[k]);
      InGridIsCell(grid, newCoord);
      if 0 <= newCoord.0 < Width(grid) && 0 <= newCoord.1 < |grid| {
        FillShrinks(Cells(grid), region, grown, pos);
        var grown' := ExploreRegion(grid, originalRegion, newCoord, grown);
        FillStep(grid, originalRegion, pos, region, grown, k, grown');
        grown := grown';
      } else {
        FillStep(grid, originalRegion, pos, region, grown, k, grown);
      }
      k := k + 1;
    }
    FillDone(grid, originalRegion, pos, region, grown);
  }

  /** get_region_elements: the region of the start plot, exactly. */
  method GetRegionElements(originalPos: Coord, grid: Grid) returns (regionCoordinates: Region)
    requires Rectangular(grid) && originalPos in Cells(grid)
    ensures regionCoordinates == Component(grid, originalPos)
  {
    var originalRegion := Label(grid, originalPos);
    var s := SameLabel(grid, originalRegion);
    regionCoordinates := ExploreRegion(grid, originalRegion, originalPos, {});
    forall c | c in Component(grid, originalPos) ensures c in regionCoordinates {
      ClosedHoldsReachable(regionCoordinates, s, originalPos, c);
    }
  }

  // ---- get_region_coordinates_for_grid ----

  lemma ComponentHasStart(grid: Grid, a: Coord)
    requires Rectangular(grid) && a in Cells(grid)
    ensures a in Component(grid, a)
  {
    ReachableRefl(SameLabel(grid, Label(grid, a)), a);
  }

  /** Any plot of a region has that region as its own. */
  lemma ComponentOfMember(grid: Grid, a: Coord, b: Coord)
    requires Rectangular(grid) && a in Cells(grid) && b in Component(grid, a)
    ensures b in Cells(grid) && Label(grid, b) == Label(grid, a)
    ensures Component(grid, b) == Component(grid, a)
  {
    var s := SameLabel(grid, Label(grid, a));
    assert Reachable(s, a, b);
    ReachableSym(s, a, b);
    forall c | c in Cells(grid) ensures Reachable(s, b, c) <==> Reachable(s, a, c) {
      if Reachable(s, b, c) {
        ReachableTrans(s, a, b, c);
      }
      if Reachable(s, a, c) {
        ReachableTrans(s, b, a, c);
      }
    }
  }

  /** The regions of the grid: the region of every plot. */
  ghost function Regions(grid: Grid): set<Region>
    requires Rectangular(grid)
  {
    set a | a in Cells(grid) :: Component(grid, a)
  }

  /** The regions partition the grid: every plot lies in exactly one region, and every region
      is a non-empty set of plots of one plant, connected edge to edge. */
  lemma RegionsPartition(grid: Grid)
    requires Rectangular(grid)
    ensures forall c :: c in Cells(grid) ==> c in Component(grid, c) && Component(grid, c) in Regions(grid)
    ensures forall r1, r2, c :: r1 in Regions(grid) && r2 in Regions(grid) && c in r1 && c in r2 ==> r1 == r2
    ensures forall r :: r in Regions(grid) ==> r != {} && r <= Cells(grid) && Connected(r)
    ensures forall r, a, b :: r in Regions(grid) && a in r && b in r ==> Label(grid, a) == Label(grid, b)
  {
    forall c | c in Cells(grid) ensures c in Component(grid, c) {
      ComponentHasStart(grid, c);
    }
    forall r1, r2, c | r1 in Regions(grid) && r2 in Regions(grid) && c in r1 && c in r2 ensures r1 == r2 {
      var a1 :| a1 in Cells(grid) && r1 == Component(grid, a1);
      var a2 :| a2 in Cells(grid) && r2 == Component(grid, a2);
      ComponentOfMember(grid, a1, c);
      ComponentOfMember(grid, a2, c);
    }
    forall r | r in Regions(grid) ensures r != {} && r <= Cells(grid) && Connected(r) {
      var a :| a in Cells(grid) && r == Component(grid, a);
      ComponentHasStart(grid, a);
      ComponentConnected(grid, a);
    }
    forall r, a, b | r in Regions(grid) && a in r && b in r ensures Label(grid, a) == Label(grid, b) {
      var s :| s in Cells(grid) && r == Component(grid, s);
      ComponentOfMember(grid, s, a);
      ComponentOfMember(grid, s, b);
    }
  }

  lemma ComponentConnected(grid: Grid, a: Coord)
    requires Rectangular(grid) && a in Cells(grid)
    ensures Connected(Component(grid, a))
  {
    var s, r := SameLabel(grid, Label(grid, a)), Component(grid, a);
    forall b | b in r ensures Reachable(r, a, b) {
      ReachableInsideComponent(s, a, b, r);
    }
    forall b, c | b in r && c in r ensures Reachable(r, b, c) {
      ReachableSym(r, a, b);
      ReachableTrans(r, b, a, c);
    }
  }

  /** The plots the row-by-row scan has passed before reaching (x, y). */
  ghost function Before(grid: Grid, y: int, x: int): set<Coord>
  {
    set c | c in Cells(grid) && (c.1 < y || (c.1 == y && c.0 < x))
  }

  /** After the scan has passed the plots before (x, y), the regions found are the regions
      of those plots, and the explored plots are the plots of those regions. */
  ghost predicate ScanState(grid: Grid, y: int, x: int, explored: set<Coord>, regions: set<Region>)
    requires Rectangular(grid)
  {
    && regions == (set a | a in Before(grid, y, x) :: Component(grid, a))
    && (forall c :: c in explored <==> exists r :: r in regions && c in r)
  }

  lemma ScanStep(grid: Grid, y: int, x: int, explored: set<Coord>, regions: set<Region>)
    requires Rectangular(grid) && (x, y) in Cells(grid) && ScanState(grid, y, x, explored, regions)
    ensures (x, y) in explored ==> ScanState(grid, y, x + 1, explored, regions)
    ensures (x, y) !in explored ==>
      ScanState(grid, y, x + 1, explored + Component(grid, (x, y)), regions + {Component(grid, (x, y))})
  {
    var before, after := Before(grid, y, x), Before(grid, y, x + 1);
    assert after == before + {(x, y)};
    var comp := Component(grid, (x, y));
    ComponentHasStart(grid, (x, y));
    if (x, y) in explored {
      var r :| r in regions && (x, y) in r;
      var a :| a in before && r == Component(grid, a);
      ComponentOfMember(grid, a, (x, y));
      assert regions == (set a | a in after :: Component(grid, a));
    } else {
      var regions' := regions + {comp};
      assert regions' == (set a | a in after :: Component(grid, a));
      forall c ensures c in explored + comp <==> exists r :: r in regions' && c in r {
        if c in comp {
          assert comp in regions';
        }
      }
    }
  }

  lemma ScanRowEnd(grid: Grid, y: int)
    requires Rectangular(grid)
    ensures Before(grid, y, Width(grid)) == Before(grid, y + 1, 0)
  {
  }

  /** One row of the scan. */
  method ScanRow(grid: Grid, y: int, explored: set<Coord>, regions: set<Region>)
    returns (explored': set<Coord>, regions': set<Region>)
    requires Rectangular(grid) && 0 <= y < |grid| && ScanState(grid, y, 0, explored, regions)
    ensures ScanState(grid, y + 1, 0, explored', regions')
  {
    explored', regions' := explored, regions;
    var x := 0;
    while x < |grid[y]|
      invariant 0 <= x <= |grid[y]| && ScanState(grid, y, x, explored', regions')
    {
      assert (x, y) in Cells(grid);
      ScanStep(grid, y, x, explored', regions');
      if (x, y) in explored' {
        x := x + 1;
        continue;
      }
      var coords := GetRegionElements((x, y), grid);
      explored' := explored' + coords;
      regions' := regions' + {coords};
      x := x + 1;
    }
    ScanRowEnd(grid, y);
  }

  /** get_region_coordinates_for_grid: scans the plots row by row and floods the region of
      every plot no earlier region holds. The result is the set of all regions. */
  method GetRegionCoordinatesForGrid(inputGrid: Grid) returns (regionCoordinates: set<Region>)
    requires Rectangular(inputGrid)
    ensures regionCoordinates == Regions(inputGrid)
  {
    var exploredPositions: set<Coord> := {};
    regionCoordinates := {};
    assert Before(inputGrid, 0, 0) == {};
    var y := 0;
    while y < |inputGrid|
      invariant 0 <= y <= |inputGrid| && ScanState(inputGrid, y, 0, exploredPositions, regionCoordinates)
    {
      exploredPositions, regionCoordinates := ScanRow(inputGrid, y, exploredPositions, regionCoordinates);
      y := y + 1;
    }
    assert Before(inputGrid, y, 0) == Cells(inputGrid);
  }

  // ---- Fence edges and corners ----

  /** What the two region measures count, one mark per plot and direction: a fence edge on
      each side whose neighbour lies outside the region, and a corner at each clockwise pair
      of directions that bends there. */
  datatype Measure = Fence | Corner

  /** The plot diagonally between the two neighbours, built as calculate_num_sides builds it:
      each coordinate taken from whichever neighbour moved along it. */
  function CornerPos(position: Coord, one: Coord, two: Coord): Coord
  {
    (if one.0 != position.0 then one.0 else two.0, if one.1 != position.1 then one.1 else two.1)
  }

  /** For each clockwise pair the built plot is the diagonal neighbour between the two. */
  lemma CornerPosIsDiagonal(c: Coord, d: Direction)
    ensures CornerPos(c, Step(c, d), Step(c, Clockwise(d))) == Step(Step(c, d), Clockwise(d))
  {
  }

  /** A convex corner (both neighbours outside) or a concave one (both inside, the diagonal
      outside). */
  predicate IsCorner(positions: set<Coord>, c: Coord, d: Direction)
  {
    var one, two := Step(c, d), Step(c, Clockwise(d));
    || (one !in positions && two !in positions)
    || (one in positions && two in positions && CornerPos(c, one, two) !in positions)
  }

  predicate Counts(m: Measure, positions: set<Coord>, c: Coord, d: Direction)
  {
    match m
    case Fence => Step(c, d) !in positions
    case Corner => IsCorner(positions, c, d)
  }

  /** The marks of the plots in v. */
  function Marks(m: Measure, v: set<Coord>, positions: set<Coord>): set<(Coord, Direction)>
  {
    set c, d | c in v && d in AllDirections && Counts(m, positions, c, d) :: (c, d)
  }

  /** The marks of one plot over the listed directions. */
  function MarksAt(m: Measure, positions: set<Coord>, c: Coord, dirs: seq<Direction>): set<(Coord, Direction)>
  {
    set d | d in dirs && Counts(m, positions, c, d) :: (c, d)
  }

  lemma {:induction false} MarksUnion(m: Measure, a: set<Coord>, b: set<Coord>, positions: set<Coord>)
    requires a * b == {}
    ensures |Marks(m, a + b, positions)| == |Marks(m, a, positions)| + |Marks(m, b, positions)|
  {
    assert Marks(m, a + b, positions) == Marks(m, a, positions) + Marks(m, b, positions);
    forall x ensures x !in Marks(m, a, positions) || x !in Marks(m, b, positions) {
      if x in Marks(m, a, positions) {
        assert x.0 in a && x.0 !in a * b;
        assert forall y :: y in Marks(m, b, positions) ==> y.0 in b;
      }
    }
    assert Marks(m, a, positions) * Marks(m, b, positions) == {};
  }

  lemma MarksMono(m: Measure, a: set<Coord>, b: set<Coord>, positions: set<Coord>)
    requires a <= b
    ensures |Marks(m, a, positions)| <= |Marks(m, b, positions)|
  {
    assert Marks(m, b, positions) == Marks(m, a, positions) + Marks(m, b - a, positions);
  }

  lemma MarksAtStep(m: Measure, positions: set<Coord>, c: Coord, k: nat)
    requires k < |Directions|
    ensures |MarksAt(m, positions, c, Directions[..k + 1])|
      == |MarksAt(m, positions, c, Directions[..k])| + (if Counts(m, positions, c, Directions[k]) then 1 else 0)
  {
    var d := Directions[k];
    assert Directions[..k + 1] == Directions[..k] + [d];
    assert d !in Directions[..k];
    MarksAtSnoc(m, positions, c, Directions[..k], d);
  }

  lemma MarksAtSnoc(m: Measure, positions: set<Coord>, c: Coord, ds: seq<Direction>, d: Direction)
    requires d !in ds
    ensures |MarksAt(m, positions, c, ds + [d])|
      == |MarksAt(m, positions, c, ds)| + (if Counts(m, positions, c, d) then 1 else 0)
  {
    var before := MarksAt(m, positions, c, ds);
    if Counts(m, positions, c, d) {
      assert MarksAt(m, positions, c, ds + [d]) == before + {(c, d)};
      assert (c, d) !in before;
    } else {
      assert MarksAt(m, positions, c, ds + [d]) == before;
    }
  }

  /** A plot's marks are its marks over the four directions, and adding the plot to a set
      without it adds them. */
  lemma MarksAddPlot(m: Measure, v: set<Coord>, c: Coord, positions: set<Coord>)
    requires c !in v
    ensures |Marks(m, v + {c}, positions)| == |MarksAt(m, positions, c, Directions)| + |Marks(m, v, positions)|
  {
    assert Marks(m, {c}, positions) == MarksAt(m, positions, c, Directions);
    MarksUnion(m, {c}, v, positions);
    assert {c} + v == v + {c};
  }

  /** A lone plot has four fence edges and four corners. */
  lemma LonePlot(c: Coord)
    ensures |Marks(Fence, {c}, {c})| == 4 && |Marks(Corner, {c}, {c})| == 4
  {
    assert Marks(Fence, {c}, {c}) == {(c, N), (c, E), (c, S), (c, W)};
    assert Marks(Corner, {c}, {c}) == {(c, N), (c, E), (c, S), (c, W)};
  }

  // ---- calculate_perimeter ----

  ghost predicate PerimeterProgress(positions: set<Coord>, pos: Coord, calculated: set<Coord>,
                                    grown: set<Coord>, sum: nat, k: nat)
  {
    && k <= |Directions|
    && calculated + {pos} <= grown <= positions && pos !in calculated
    && sum == |MarksAt(Fence, positions, pos, Directions[..k])| + |Marks(Fence, grown - calculated - {pos}, positions)|
    && (forall j :: 0 <= j < k && Step(pos, Directions[j]) in positions ==> Step(pos, Directions[j]) in grown)
    && (forall c :: c in grown - calculated ==> Reachable(positions, pos, c))
    && (forall c :: c in grown - calculated && c != pos ==> ClosedAt(grown, positions, c))
  }

  lemma PerimeterStep(positions: set<Coord>, pos: Coord, calculated: set<Coord>, grown: set<Coord>,
                      sum: nat, k: nat, count: nat, grown': set<Coord>)
    requires PerimeterProgress(positions, pos, calculated, grown, sum, k) && k < |Directions|
    requires var n := Step(pos, Directions[k]);
      && grown <= grown' <= positions
      && count == (if n in positions then 0 else 1) + |Marks(Fence, grown' - grown, positions)|
      && (n in positions ==> n in grown')
      && (forall c :: c in grown' - grown ==> Reachable(positions, n, c) && ClosedAt(grown', positions, c))
    ensures PerimeterProgress(positions, pos, calculated, grown', sum + count, k + 1)
  {
    var n := Step(pos, Directions[k]);
    assert Adjacent(pos, n);
    MarksAtStep(Fence, positions, pos, k);
    assert grown' - calculated - {pos} == (grown - calculated - {pos}) + (grown' - grown);
    MarksUnion(Fence, grown - calculated - {pos}, grown' - grown, positions);
    forall c | c in grown' - calculated ensures Reachable(positions, pos, c) {
      if c !in grown {
        ReachablePrepend(positions, pos, n, c);
      }
    }
    forall c | c in grown' - calculated && c != pos ensures ClosedAt(grown', positions, c) {
      if c in grown {
        assert ClosedAt(grown, positions, c);
      }
    }
  }

  lemma PerimeterDone(positions: set<Coord>, pos: Coord, calculated: set<Coord>, grown: set<Coord>, sum: nat)
    requires PerimeterProgress(positions, pos, calculated, grown, sum, |Directions|)
    ensures sum == |Marks(Fence, grown - calculated, positions)|
    ensures forall c :: c in grown - calculated ==> ClosedAt(grown, positions, c)
  {
    assert Directions[..|Directions|] == Directions;
    assert grown - calculated == (grown - calculated - {pos}) + {pos};
    MarksAddPlot(Fence, grown - calculated - {pos}, pos, positions);
    assert ClosedAt(grown, positions, pos) by {
      forall d | Step(pos, d) in positions ensures Step(pos, d) in grown {
        assert d == Directions[match d case N => 0 case E => 1 case S => 2 case W => 3];
      }
    }
  }

  /** explore inside calculate_perimeter: 1 for a step out of the region, 0 for a plot already
      counted, and otherwise the fence edges of every plot reachable from pos that was not yet
      counted. */
  method PerimeterExplore(positions: set<Coord>, pos: Coord, calculated: set<Coord>)
    returns (count: nat, calculated': set<Coord>)
    requires calculated <= positions
    ensures calculated <= calculated' <= positions
    ensures count == (if pos in positions then 0 else 1) + |Marks(Fence, calculated' - calculated, positions)|
    ensures pos in positions ==> pos in calculated'
    ensures forall c :: c in calculated' - calculated ==> Reachable(positions, pos, c) && ClosedAt(calculated', positions, c)
    decreases |positions - calculated|
  {
    if pos in calculated {
      return 0, calculated;
    }
    if pos !in positions {
      return 1, calculated;
    }
    calculated' := calculated + {pos};
    ReachableRefl(positions, pos);
    var sum := 0;
    var k := 0;
    while k < |Directions|
      invariant PerimeterProgress(positions, pos, calculated, calculated', sum, k)
    {
      FillShrinks(positions, calculated, calculated', pos);
      var c, grown := PerimeterExplore(positions, Step(pos, Directions[k]), calculated');
      PerimeterStep(positions, pos, calculated, calculated', sum, k, c, grown);
      sum := sum + c;
      calculated' := grown;
      k := k + 1;
    }
    PerimeterDone(positions, pos, calculated, calculated', sum);
    count := sum;
  }

  /** The plots reached from a start plot: on a connected set, all of them. */
  lemma ReachedAll(positions: set<Coord>, start: Coord, reached: set<Coord>)
    requires start in reached && reached <= positions && Connected(positions)
    requires forall c :: c in reached ==> ClosedAt(reached, positions, c)
    ensures reached == positions
  {
    forall c | c in positions ensures c in reached {
      ClosedHoldsReachable(reached, positions, start, c);
    }
  }

  /** calculate_perimeter: the fence edges of the plots reachable from a plot of the set; for
      a connected region, every (plot, outside neighbour) edge. */
  method CalculatePerimeter(positions: set<Coord>) returns (perimeter: nat)
    requires positions != {}
    ensures perimeter <= |Marks(Fence, positions, positions)|
    ensures Connected(positions) ==> perimeter == |Marks(Fence, positions, positions)|
  {
    var start :| start in positions;
    var calculatedCoords;
    perimeter, calculatedCoords := PerimeterExplore(positions, start, {});
    assert calculatedCoords - {} == calculatedCoords;
    MarksMono(Fence, calculatedCoords, positions, positions);
    if Connected(positions) {
      ReachedAll(positions, start, calculatedCoords);
    }
  }

  // ---- calculate_num_sides ----

  /** The second direction of each pair: the directions rotated by one. */
  const Rotated: seq<Direction> := Directions[1..] + [Directions[0]]

  ghost predicate SidesProgress(positions: set<Coord>, position: Coord, explored: set<Coord>,
                                grown: set<Coord>, corners: nat, k: nat)
  {
    && k <= |Directions|
    && explored + {position} <= grown <= positions && position !in explored
    && corners == |MarksAt(Corner, positions, position, Directions)| + |Marks(Corner, grown - explored - {position}, positions)|
    && (forall j :: 0 <= j < k && Step(position, Directions[j]) in positions ==> Step(position, Directions[j]) in grown)
    && (forall c :: c in grown - explored ==> Reachable(positions, position, c))
    && (forall c :: c in grown - explored && c != position ==> ClosedAt(grown, positions, c))
  }

  lemma SidesStep(positions: set<Coord>, position: Coord, explored: set<Coord>, grown: set<Coord>,
                  corners: nat, k: nat, count: nat, grown': set<Coord>)
    requires SidesProgress(positions, position, explored, grown, corners, k) && k < |Directions|
    requires var n := Step(position, Directions[k]);
      && n in positions && n !in grown
      && grown + {n} <= grown' <= positions
      && count == |Marks(Corner, grown' - grown, positions)|
      && (forall c :: c in grown' - grown ==> Reachable(positions, n, c) && ClosedAt(grown', positions, c))
    ensures SidesProgress(positions, position, explored, grown', corners + count, k + 1)
  {
    var n := Step(position, Directions[k]);
    assert Adjacent(position, n);
    assert grown' - explored - {position} == (grown - explored - {position}) + (grown' - grown);
    MarksUnion(Corner, grown - explored - {position}, grown' - grown, positions);
    forall c | c in grown' - explored ensures Reachable(positions, position, c) {
      if c !in grown {
        ReachablePrepend(positions, position, n, c);
      }
    }
    forall c | c in grown' - explored && c != position ensures ClosedAt(grown', positions, c) {
      if c in grown {
        assert ClosedAt(grown, positions, c);
      }
    }
  }

  lemma SidesDone(positions: set<Coord>, position: Coord, explored: set<Coord>, grown: set<Coord>, corners: nat)
    requires SidesProgress(positions, position, explored, grown, corners, |Directions|)
    ensures corners == |Marks(Corner, grown - explored, positions)|
    ensures forall c :: c in grown - explored ==> ClosedAt(grown, positions, c)
  {
    assert grown - explored == (grown - explored - {position}) + {position};
    MarksAddPlot(Corner, grown - explored - {position}, position, positions);
    assert ClosedAt(grown, positions, position) by {
      forall d | Step(position, d) in positions ensures Step(position, d) in grown {
        assert d == Directions[match d case N => 0 case E => 1 case S => 2 case W => 3];
      }
    }
  }

  /** The corners at one plot: for each clockwise pair, a convex corner when neither
      neighbour is in the region, a concave one when both are and the diagonal plot is not. */
  method CornersAt(positions: set<Coord>, position: Coord) returns (corners: nat)
    ensures corners == |MarksAt(Corner, positions, position, Directions)|
  {
    corners := 0;
    var k := 0;
    while k < |Directions|
      invariant 0 <= k <= |Directions| && corners == |MarksAt(Corner, positions, position, Directions[..k])|
    {
      var directionOne, directionTwo := Directions[k], Rotated[k];
      assert directionTwo == Clockwise(directionOne);
      var relativeCoordOne := Step(position, directionOne);
      var relativeCoordTwo := Step(position, directionTwo);
      MarksAtStep(Corner, positions, position, k);
      if relativeCoordOne !in positions && relativeCoordTwo !in positions {
        corners := corners + 1;
      }
      var cornerPos := CornerPos(position, relativeCoordOne, relativeCoordTwo);
      if relativeCoordOne in positions && relativeCoordTwo in positions && cornerPos !in positions {
        corners := corners + 1;
      }
      k := k + 1;
    }
    assert Directions[..k] == Directions;
  }

  /** explore inside calculate_num_sides: the corners of position and of every plot of the
      set reachable from it that was not yet explored. */
  method SidesExplore(positions: set<Coord>, position: Coord, explored: set<Coord>)
    returns (corners: nat, explored': set<Coord>)
    requires explored <= positions && position in positions && position !in explored
    ensures explored + {position} <= explored' <= positions
    ensures corners == |Marks(Corner, explored' - explored, positions)|
    ensures forall c :: c in explored' - explored ==> Reachable(positions, position, c) && ClosedAt(explored', positions, c)
    decreases |positions - explored|
  {
    explored' := explored + {position};
    ReachableRefl(positions, position);
    corners := CornersAt(positions, position);
    var k := 0;
    while k < |Directions|
      invariant SidesProgress(positions, position, explored, explored', corners, k)
    {
      var newCoord := Step(position, Directions[k]);
      if newCoord !in explored' && newCoord in positions {
        FillShrinks(positions, explored, explored', position);
        var c, grown := SidesExplore(positions, newCoord, explored');
        SidesStep(positions, position, explored, explored', corners, k, c, grown);
        corners := corners + c;
        explored' := grown;
      }
      k := k + 1;
    }
    SidesDone(positions, position, explored, explored', corners);
  }

  /** calculate_num_sides: the corners of the plots reachable from a plot of the set; for a
      connected region, every corner of the region. The grid is not consulted. */
  method CalculateNumSides(positions: set<Coord>, inputGrid: Grid) returns (sides: nat)
    requires positions != {}
    ensures sides <= |Marks(Corner, positions, positions)|
    ensures Connected(positions) ==> sides == |Marks(Corner, positions, positions)|
  {
    var start :| start in positions;
    var exploredCoordinates;
    sides, exploredCoordinates := SidesExplore(positions, start, {});
    assert exploredCoordinates - {} == exploredCoordinates;
    MarksMono(Corner, exploredCoordinates, positions, positions);
    if Connected(positions) {
      ReachedAll(positions, start, exploredCoordinates);
    }
  }

  // ---- Prices ----

  ghost function Pick(regions: set<Region>): Region
    requires regions != {}
  {
    var r :| r in regions; r
  }

  /** The price of a set of regions: area times the measure, summed. */
  ghost function Price(m: Measure, regions: set<Region>): nat
    decreases |regions|
  {
    if regions == {} then 0
    else
      var r := Pick(regions);
      |r| * |Marks(m, r, r)| + Price(m, regions - {r})
  }

  /** The sum does not depend on the order the regions are visited in. */
  lemma {:induction false} PriceRemove(m: Measure, regions: set<Region>, r: Region)
    requires r in regions
    ensures Price(m, regions) == |r| * |Marks(m, r, r)| + Price(m, regions - {r})
    decreases |regions|
  {
    var p := Pick(regions);
    if r != p {
      PriceRemove(m, regions - {p}, r);
      PriceRemove(m, regions - {r}, p);
      assert regions - {p} - {r} == regions - {r} - {p};
    }
  }

  /** One region's measure, computed by the explorer the measure names. */
  method RegionMeasure(m: Measure, coords: Region, grid: Grid) returns (measure: nat)
    requires coords != {} && Connected(coords)
    ensures measure == |Marks(m, coords, coords)|
  {
    if m == Fence {
      measure := CalculatePerimeter(coords);
    } else {
      measure := CalculateNumSides(coords, grid);
    }
  }

  /** The price over the regions of the grid, visited in any order. */
  method SumPrices(m: Measure, grid: Grid, regionCoordinates: set<Region>) returns (priceSum: nat)
    requires forall r :: r in regionCoordinates ==> r != {} && Connected(r)
    ensures priceSum == Price(m, regionCoordinates)
  {
    priceSum := 0;
    var remaining := regionCoordinates;
    while remaining != {}
      invariant remaining <= regionCoordinates
      invariant priceSum + Price(m, remaining) == Price(m, regionCoordinates)
      decreases |remaining|
    {
      var coords :| coords in remaining;
      var area := |coords|;
      var measure := RegionMeasure(m, coords, grid);
      PriceRemove(m, remaining, coords);
      priceSum := priceSum + area * measure;
      remaining := remaining - {coords};
    }
  }

  /** The first answer: area times perimeter over the regions of the grid. */
  method FencePrice(inputGrid: Grid) returns (priceSum: nat)
    requires Rectangular(inputGrid)
    ensures priceSum == Price(Fence, Regions(inputGrid))
  {
    var regionCoordinates := GetRegionCoordinatesForGrid(inputGrid);
    RegionsPartition(inputGrid);
    priceSum := SumPrices(Fence, inputGrid, regionCoordinates);
  }

  /** get_cost_for_file on the parsed grid: area times number of sides over the regions. */
  method GetCostForGrid(inputGrid: Grid) returns (priceSum: nat)
    requires Rectangular(inputGrid)
    ensures priceSum == Price(Corner, Regions(inputGrid))
  {
    var regionCoordinates := GetRegionCoordinatesForGrid(inputGrid);
    RegionsPartition(inputGrid);
    priceSum := SumPrices(Corner, inputGrid, regionCoordinates);
  }
}
