/** Resonant antennas (8/day8.py): antennas are grouped by frequency character, and for every
    ordered pair of same-frequency antennas the points node_one + i * (node_two - node_one),
    i = 0, 1, 2, ..., are antinodes while they stay on the map. The answer is the number of
    distinct antinodes over all frequencies. The source's float counter takes only whole
    values, so it is an integer here. */
module Antinodes {

  /** A position (x, y): column, then row. */
  type Pos = (int, int)

  /** The map's size: (width, height). */
  type Size = (int, int)

  predicate InBounds(p: Pos, size: Size)
  {
    0 <= p.0 < size.0 && 0 <= p.1 < size.1
  }

  /** Every row as long as the first. */
  predicate Rect(grid: seq<seq<char>>)
  {
    |grid| > 0 && forall r :: 0 <= r < |grid| ==> |grid[r]| == |grid[0]|
  }

  /** Row-major order. */
  predicate Before(p: Pos, q: Pos)
  {
    p.1 < q.1 || (p.1 == q.1 && p.0 < q.0)
  }

  /** The antennas of frequency c, as the grouping should produce them: exactly the cells
      holding c, in row-major order without repeats. */
  predicate ListsCellsOf(grid: seq<seq<char>>, c: char, locs: seq<Pos>)
    requires Rect(grid)
  {
    && (forall i, j :: 0 <= i < j < |locs| ==> Before(locs[i], locs[j]))
    && (forall i :: 0 <= i < |locs| ==> InBounds(locs[i], (|grid[0]|, |grid|)) && grid[locs[i].1][locs[i].0] == c)
    && (forall x, y :: 0 <= y < |grid| && 0 <= x < |grid[0]| && grid[y][x] == c ==> (x, y) in locs)
  }

  /** The list of character c after every cell before (x, y) in row-major order: exactly the
      cells seen so far that hold c, in row-major order. */
  ghost predicate ListBefore(grid: seq<seq<char>>, c: char, list: seq<Pos>, x: int, y: int)
    requires Rect(grid)
  {
    var size := (|grid[0]|, |grid|);
    && (forall i, j :: 0 <= i < j < |list| ==> Before(list[i], list[j]))
    && (forall i :: 0 <= i < |list| ==>
          InBounds(list[i], size) && Before(list[i], (x, y)) && grid[list[i].1][list[i].0] == c)
    && (forall x', y' :: InBounds((x', y'), size) && Before((x', y'), (x, y)) && grid[y'][x'] == c ==> (x', y') in list)
  }

  /** c occurs in some cell before (x, y). */
  ghost predicate SeenBefore(grid: seq<seq<char>>, c: char, x: int, y: int)
    requires Rect(grid)
  {
    exists x', y' :: InBounds((x', y'), (|grid[0]|, |grid|)) && Before((x', y'), (x, y)) && grid[y'][x'] == c
  }

  /** The grouping after every cell before (x, y): the keys are the characters other than '.'
      seen so far, each with its list. */
  ghost predicate GroupedBefore(grid: seq<seq<char>>, groups: map<char, seq<Pos>>, x: int, y: int)
    requires Rect(grid)
  {
    && (forall c :: c in groups <==> c != '.' && SeenBefore(grid, c, x, y))
    && (forall c :: c in groups ==> ListBefore(grid, c, groups[c], x, y))
  }

  /** One cell of the grouping loop: anything but '.' is appended to its character's list. */
  function AddCell(grid: seq<seq<char>>, groups: map<char, seq<Pos>>, x: int, y: int): map<char, seq<Pos>>
    requires Rect(grid) && InBounds((x, y), (|grid[0]|, |grid|))
  {
    var ch := grid[y][x];
    if ch == '.' then groups
    else groups[ch := (if ch in groups then groups[ch] else []) + [(x, y)]]
  }

  lemma ListStep(grid: seq<seq<char>>, c: char, list: seq<Pos>, x: int, y: int)
    requires Rect(grid) && InBounds((x, y), (|grid[0]|, |grid|))
    requires ListBefore(grid, c, list, x, y)
    ensures grid[y][x] == c ==> ListBefore(grid, c, list + [(x, y)], x + 1, y)
    ensures grid[y][x] != c ==> ListBefore(grid, c, list, x + 1, y)
  {
  }

  lemma SeenStep(grid: seq<seq<char>>, c: char, x: int, y: int)
    requires Rect(grid) && InBounds((x, y), (|grid[0]|, |grid|))
    ensures SeenBefore(grid, c, x + 1, y) <==> SeenBefore(grid, c, x, y) || grid[y][x] == c
  {
    if SeenBefore(grid, c, x + 1, y) && grid[y][x] != c {
      var x', y' :| InBounds((x', y'), (|grid[0]|, |grid|)) && Before((x', y'), (x + 1, y)) && grid[y'][x'] == c;
      assert Before((x', y'), (x, y));
    }
  }

  lemma NotSeenEmpty(grid: seq<seq<char>>, c: char, x: int, y: int)
    requires Rect(grid) && !SeenBefore(grid, c, x, y)
    ensures ListBefore(grid, c, [], x, y)
  {
  }

  lemma GroupStep(grid: seq<seq<char>>, groups: map<char, seq<Pos>>, x: int, y: int)
    requires Rect(grid) && InBounds((x, y), (|grid[0]|, |grid|))
    requires GroupedBefore(grid, groups, x, y)
    ensures GroupedBefore(grid, AddCell(grid, groups, x, y), x + 1, y)
  {
    var g := AddCell(grid, groups, x, y);
    var ch := grid[y][x];
    forall c ensures c in g <==> c != '.' && SeenBefore(grid, c, x + 1, y) {
      SeenStep(grid, c, x, y);
    }
    forall c | c in g ensures ListBefore(grid, c, g[c], x + 1, y) {
      if c in groups {
        ListStep(grid, c, groups[c], x, y);
      } else {
        SeenStep(grid, c, x, y);
        NotSeenEmpty(grid, c, x, y);
        ListStep(grid, c, [], x, y);
        assert [] + [(x, y)] == [(x, y)];
      }
    }
  }

  /** The end of a row is the start of the next. */
  lemma RowWrap(grid: seq<seq<char>>, groups: map<char, seq<Pos>>, y: int)
    requires Rect(grid)
    requires GroupedBefore(grid, groups, |grid[0]|, y)
    ensures GroupedBefore(grid, groups, 0, y + 1)
  {
    var size := (|grid[0]|, |grid|);
    assert forall x', y' :: InBounds((x', y'), size) ==> (Before((x', y'), (|grid[0]|, y)) <==> Before((x', y'), (0, y + 1)));
    forall c ensures SeenBefore(grid, c, |grid[0]|, y) <==> SeenBefore(grid, c, 0, y + 1) {
    }
    forall c | c in groups ensures ListBefore(grid, c, groups[c], 0, y + 1) {
      assert ListBefore(grid, c, groups[c], |grid[0]|, y);
    }
  }

  /** Once every cell has been seen, the grouping is complete. */
  lemma GroupedAll(grid: seq<seq<char>>, groups: map<char, seq<Pos>>)
    requires Rect(grid) && GroupedBefore(grid, groups, 0, |grid|)
    ensures forall c :: c in groups <==> c != '.' && exists x, y :: 0 <= y < |grid| && 0 <= x < |grid[0]| && grid[y][x] == c
    ensures forall c :: c in groups ==> ListsCellsOf(grid, c, groups[c])
  {
    var size := (|grid[0]|, |grid|);
    assert forall x', y' :: InBounds((x', y'), size) ==> Before((x', y'), (0, |grid|));
    forall c ensures SeenBefore(grid, c, 0, |grid|) <==> exists x, y :: 0 <= y < |grid| && 0 <= x < |grid[0]| && grid[y][x] == c {
      if exists x, y :: 0 <= y < |grid| && 0 <= x < |grid[0]| && grid[y][x] == c {
        var x, y :| 0 <= y < |grid| && 0 <= x < |grid[0]| && grid[y][x] == c;
        assert InBounds((x, y), size);
      }
    }
    forall c | c in groups ensures ListsCellsOf(grid, c, groups[c]) {
      assert ListBefore(grid, c, groups[c], 0, |grid|);
    }
  }

  lemma GroupedStart(grid: seq<seq<char>>)
    requires Rect(grid)
    ensures GroupedBefore(grid, map[], 0, 0)
  {
    forall c ensures !SeenBefore(grid, c, 0, 0) {
    }
  }

  /** The inner loop of the grouping, over row y. */
  method GroupRow(grid: seq<seq<char>>, y: int, groups: map<char, seq<Pos>>) returns (gridLocations: map<char, seq<Pos>>)
    requires Rect(grid) && 0 <= y < |grid|
    requires GroupedBefore(grid, groups, 0, y)
    ensures GroupedBefore(grid, gridLocations, 0, y + 1)
  {
    gridLocations := groups;
    var x := 0;
    while x < |grid[0]|
      invariant 0 <= x <= |grid[0]|
      invariant GroupedBefore(grid, gridLocations, x, y)
    {
      gridLocations := GroupCell(grid, gridLocations, x, y);
      x := x + 1;
    }
    RowWrap(grid, gridLocations, y);
  }

  /** The body of the grouping loop at cell (x, y): a cell other than '.' is appended to the list
      of its character, which is created when missing. */
  method GroupCell(grid: seq<seq<char>>, groups: map<char, seq<Pos>>, x: int, y: int)
    returns (gridLocations: map<char, seq<Pos>>)
    requires Rect(grid) && InBounds((x, y), (|grid[0]|, |grid|))
    requires GroupedBefore(grid, groups, x, y)
    ensures GroupedBefore(grid, gridLocations, x + 1, y)
  {
    GroupStep(grid, groups, x, y);
    gridLocations := groups;
    var ch := grid[y][x];
    if ch != '.' {
      var existing := if ch in gridLocations then gridLocations[ch] else [];
      gridLocations := gridLocations[ch := existing + [(x, y)]];
    }
  }

  /** The grouping loop: every cell other than '.' is appended, in row-major order, to the list
      of its character. */
  method GroupAntennas(grid: seq<seq<char>>) returns (gridLocations: map<char, seq<Pos>>)
    requires Rect(grid)
    ensures forall c :: c in gridLocations <==> c != '.' && exists x, y :: 0 <= y < |grid| && 0 <= x < |grid[0]| && grid[y][x] == c
    ensures forall c :: c in gridLocations ==> ListsCellsOf(grid, c, gridLocations[c])
  {
    gridLocations := map[];
    GroupedStart(grid);
    var y := 0;
    while y < |grid|
      invariant 0 <= y <= |grid|
      invariant GroupedBefore(grid, gridLocations, 0, y)
    {
      gridLocations := GroupRow(grid, y, gridLocations);
      y := y + 1;
    }
    GroupedAll(grid, gridLocations);
  }

  /** The point i steps from `one` along the vector from `one` to `two`. */
  function Along(one: Pos, two: Pos, i: int): Pos
  {
    (i * (two.0 - one.0) + one.0, i * (two.1 - one.1) + one.1)
  }

  /** p is on the map and lies at a whole number of steps i >= 0 from some antenna towards
      another antenna of the list. */
  ghost predicate IsAntinode(locs: seq<Pos>, size: Size, p: Pos)
  {
    InBounds(p, size) &&
    exists j, k, i :: 0 <= j < |locs| && 0 <= k < |locs| && j != k && 0 <= i && p == Along(locs[j], locs[k], i)
  }

  lemma BetweenProducts(m: int, i: int, d: int)
    requires 0 <= m <= i
    ensures d >= 0 ==> 0 <= m * d <= i * d
    ensures d < 0 ==> i * d <= m * d <= 0
  {
    if d >= 0 {
      assert (i - m) * d >= 0;
    } else {
      assert (i - m) * (-d) >= 0;
    }
  }

  /** The map is convex: if the antenna and the point i steps away are on it, so is every
      point in between. So the first point off the map ends the antinodes of the pair. */
  lemma OnMapBetween(one: Pos, two: Pos, size: Size, m: int, i: int)
    requires InBounds(one, size) && InBounds(Along(one, two, i), size) && 0 <= m <= i
    ensures InBounds(Along(one, two, m), size)
  {
    BetweenProducts(m, i, two.0 - one.0);
    BetweenProducts(m, i, two.1 - one.1);
  }

  /** How many more steps stay on the map: a measure that each step lowers. */
  function StepsLeft(p: Pos, d: Pos, size: Size): int
  {
    if d.0 > 0 then size.0 - p.0
    else if d.0 < 0 then p.0 + 1
    else if d.1 > 0 then size.1 - p.1
    else p.1 + 1
  }

  /** The walk along one ordered pair: i counts up from 0 until the point leaves the map. */
  method AddPairAntinodes(one: Pos, two: Pos, size: Size, acc: set<Pos>) returns (result: set<Pos>)
    requires one != two && InBounds(one, size)
    ensures forall p :: p in result <==> p in acc || (InBounds(p, size) && exists i :: 0 <= i && p == Along(one, two, i))
  {
    var d := (two.0 - one.0, two.1 - one.1);
    result := acc;
    var i := 0;
    var location := Along(one, two, 0);
    while InBounds(location, size)
      invariant 0 <= i && location == Along(one, two, i)
      invariant forall m :: 0 <= m < i ==> InBounds(Along(one, two, m), size)
      invariant forall p :: p in result <==> p in acc || exists m :: 0 <= m < i && p == Along(one, two, m)
      decreases StepsLeft(location, d, size)
    {
      result := result + {location};
      assert Along(one, two, i + 1) == (location.0 + d.0, location.1 + d.1);
      i := i + 1;
      location := Along(one, two, i);
    }
    forall p | InBounds(p, size) && (exists m :: 0 <= m && p == Along(one, two, m))
      ensures p in result
    {
      var m :| 0 <= m && p == Along(one, two, m);
      if m >= i {
        OnMapBetween(one, two, size, i, m);
        assert false;
      }
    }
  }

  /** p is on the map and lies on a walk from antenna j towards one of the first n antennas
      other than j. */
  ghost predicate ReachedVia(locs: seq<Pos>, size: Size, j: int, n: int, p: Pos)
    requires 0 <= j < |locs| && n <= |locs|
  {
    InBounds(p, size) && exists k, i :: 0 <= k < n && j != k && 0 <= i && p == Along(locs[j], locs[k], i)
  }

  /** The antinodes are the points reached from some antenna towards any other. */
  lemma AntinodeByAntenna(locs: seq<Pos>, size: Size, p: Pos)
    ensures IsAntinode(locs, size, p) <==> exists j :: 0 <= j < |locs| && ReachedVia(locs, size, j, |locs|, p)
  {
    if IsAntinode(locs, size, p) {
      var j, k, i :| 0 <= j < |locs| && 0 <= k < |locs| && j != k && 0 <= i && p == Along(locs[j], locs[k], i);
      assert ReachedVia(locs, size, j, |locs|, p);
    }
  }

  /** The inner loop of get_antinode_locations: the walks from antenna j towards every other
      antenna, added to acc. */
  method AddAntennaAntinodes(locations: seq<Pos>, size: Size, j: int, acc: set<Pos>) returns (result: set<Pos>)
    requires forall i :: 0 <= i < |locations| ==> InBounds(locations[i], size)
    requires forall i, j :: 0 <= i < j < |locations| ==> locations[i] != locations[j]
    requires 0 <= j < |locations|
    ensures forall p :: p in result <==> p in acc || ReachedVia(locations, size, j, |locations|, p)
  {
    result := acc;
    var k := 0;
    while k < |locations|
      invariant 0 <= k <= |locations|
      invariant forall p :: p in result <==> p in acc || ReachedVia(locations, size, j, k, p)
    {
      if j != k {
        result := AddPairAntinodes(locations[j], locations[k], size, result);
      }
      k := k + 1;
    }
  }

  /** get_antinode_locations: the union of the walks over every ordered pair of distinct
      entries. Every result is on the map. The antennas of one frequency are distinct, which
      the walk needs in order to move. */
  method GetAntinodeLocations(locations: seq<Pos>, size: Size) returns (antinodes: set<Pos>)
    requires forall i :: 0 <= i < |locations| ==> InBounds(locations[i], size)
    requires forall i, j :: 0 <= i < j < |locations| ==> locations[i] != locations[j]
    ensures forall p :: p in antinodes <==> IsAntinode(locations, size, p)
    ensures forall p :: p in antinodes ==> InBounds(p, size)
  {
    antinodes := {};
    var j := 0;
    while j < |locations|
      invariant 0 <= j <= |locations|
      invariant forall p :: p in antinodes <==> exists j' :: 0 <= j' < j && ReachedVia(locations, size, j', |locations|, p)
    {
      antinodes := AddAntennaAntinodes(locations, size, j, antinodes);
      j := j + 1;
    }
    forall p
      ensures p in antinodes <==> IsAntinode(locations, size, p)
    {
      AntinodeByAntenna(locations, size, p);
    }
  }

  /** With two or more antennas of a frequency, every antenna is itself an antinode: it is
      step 0 of its pairs and step 1 of the pairs towards it. */
  lemma AntennasAreAntinodes(locations: seq<Pos>, size: Size, j: int)
    requires forall i :: 0 <= i < |locations| ==> InBounds(locations[i], size)
    requires |locations| >= 2 && 0 <= j < |locations|
    ensures IsAntinode(locations, size, locations[j])
  {
    var k := if j == 0 then 1 else 0;
    assert locations[j] == Along(locations[j], locations[k], 0);
    assert locations[j] == Along(locations[k], locations[j], 1);
  }

  /** The answer: the distinct antinodes over all frequencies. */
  ghost predicate IsAnyAntinode(groups: map<char, seq<Pos>>, size: Size, p: Pos)
  {
    exists c :: c in groups && IsAntinode(groups[c], size, p)
  }

  /** The union over the frequencies, whatever order the keys come in. */
  method UnionOfAntinodes(groups: map<char, seq<Pos>>, size: Size) returns (all: set<Pos>)
    requires forall c :: c in groups ==>
      (forall i :: 0 <= i < |groups[c]| ==> InBounds(groups[c][i], size))
      && (forall i, j :: 0 <= i < j < |groups[c]| ==> groups[c][i] != groups[c][j])
    ensures forall p :: p in all <==> IsAnyAntinode(groups, size, p)
  {
    all := {};
    var remaining := groups.Keys;
    while remaining != {}
      invariant remaining <= groups.Keys
      invariant forall p :: p in all <==> exists c :: c in groups.Keys - remaining && IsAntinode(groups[c], size, p)
      decreases |remaining|
    {
      var c :| c in remaining;
      var found := GetAntinodeLocations(groups[c], size);
      all := all + found;
      remaining := remaining - {c};
    }
  }

  /** The whole program: group the antennas, collect the antinodes, count them. */
  method CountAntinodes(grid: seq<seq<char>>) returns (groups: map<char, seq<Pos>>, count: nat)
    requires Rect(grid)
    ensures forall c :: c in groups <==> c != '.' && exists x, y :: 0 <= y < |grid| && 0 <= x < |grid[0]| && grid[y][x] == c
    ensures forall c :: c in groups ==> ListsCellsOf(grid, c, groups[c])
    ensures count == |set x, y | 0 <= x < |grid[0]| && 0 <= y < |grid| && IsAnyAntinode(groups, (|grid[0]|, |grid|), (x, y)) :: (x, y)|
  {
    var size := (|grid[0]|, |grid|);
    groups := GroupAntennas(grid);
    forall c | c in groups
      ensures forall i, j :: 0 <= i < j < |groups[c]| ==> groups[c][i] != groups[c][j]
    {
      assert ListsCellsOf(grid, c, groups[c]);
    }
    var all := UnionOfAntinodes(groups, size);
    ghost var counted := set x, y | 0 <= x < |grid[0]| && 0 <= y < |grid| && IsAnyAntinode(groups, size, (x, y)) :: (x, y);
    assert all == counted by {
      forall p | p in all ensures p in counted {
        var c :| c in groups && IsAntinode(groups[c], size, p);
      }
    }
    count := |all|;
  }
}
