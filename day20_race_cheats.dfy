/** The race condition (20/20.py): a racetrack of open cells from S to E, unit-step Dijkstra
    distances from S, and cheats that jump from one open cell to another at most 20 steps away
    through walls, recorded with the time they save. */
module RaceCheats {
  import opened ShortestPaths
  import opened MazeGrids
  import opened IntSets

  // ---- simple_dijkstras_algorithm ----

  /** d holds the least number of steps from s to every open cell: the keys are the open
      cells, s is at 0, every finite entry is the length of a walk through open cells, no walk
      under the sentinel is shorter, and the sentinel marks the rest. */
  ghost predicate RaceDistances(grid: Grid, s: Coord, d: map<Coord, int>)
  {
    && d.Keys == Open(grid) && s in d && d[s] == 0
    && (forall c :: c in d ==> 0 <= d[c] <= Infinity)
    && (forall c :: c in d && d[c] < Infinity ==> Reaches(UnitEdges, d.Keys, s, c, d[c]))
    && NoCheaperWalk(UnitEdges, d, s)
  }

  /** simple_dijkstras_algorithm of 20/20.py: the steps from S to every open cell, the sentinel
      where no way leads; raises when the grid has no S. */
  method SimpleDijkstrasAlgorithm(grid: Grid) returns (r: Result<map<Coord, int>>)
    ensures r.Err? <==> !Occurs(grid, 'S')
    ensures r.Ok? ==> exists s :: First(grid, s, 'S') && RaceDistances(grid, s, r.value)
  {
    var startCoord := FindCharInGrid('S', grid);
    if startCoord.Err? {
      return Err(startCoord.msg);
    }
    var s := startCoord.value;
    var distances := SimpleDijkstra(grid, s);
    OpenMember(grid, s);
    assert Open(grid) + {s} == Open(grid);
    return Ok(distances);
  }

  // ---- get_end_pos ----

  /** The component-wise sum of a list of moves. */
  function Displacement(moves: seq<Coord>): (r: Coord)
    decreases |moves|
  {
    if moves == [] then (0, 0)
    else var rest := Displacement(moves[..|moves| - 1]); (rest.0 + moves[|moves| - 1].0, rest.1 + moves[|moves| - 1].1)
  }

  /** Displacements of consecutive lists of moves add up. */
  lemma {:induction false} DisplacementAppend(a: seq<Coord>, b: seq<Coord>)
    ensures var da, db, dab := Displacement(a), Displacement(b), Displacement(a + b);
      dab == (da.0 + db.0, da.1 + db.1)
    decreases |b|
  {
    if b == [] {
      assert a + b == a;
    } else {
      var b' := b[..|b| - 1];
      assert (a + b)[..|a + b| - 1] == a + b';
      DisplacementAppend(a, b');
    }
  }

  /** get_end_pos: start moved by each move in turn. */
  method GetEndPos(start: Coord, moves: seq<Coord>) returns (r: Coord)
    ensures r == (start.0 + Displacement(moves).0, start.1 + Displacement(moves).1)
  {
    var x := start.0;
    var y := start.1;
    var i := 0;
    while i < |moves|
      invariant 0 <= i <= |moves|
      invariant (x, y) == (start.0 + Displacement(moves[..i]).0, start.1 + Displacement(moves[..i]).1)
    {
      assert moves[..i + 1][..i] == moves[..i];
      x := x + moves[i].0;
      y := y + moves[i].1;
      i := i + 1;
    }
    assert moves[..i] == moves;
    return (x, y);
  }

  // ---- Cheats ----

  const MaxCheatDistance: int := 20

  function Abs(n: int): nat
  {
    if n < 0 then -n else n
  }

  function Manhattan(a: Coord, b: Coord): nat
  {
    Abs(a.0 - b.0) + Abs(a.1 - b.1)
  }

  /** The time a cheat from s to f saves over the honest race: the distance skipped minus the
      length of the jump. */
  function Saving(d: map<Coord, int>, s: Coord, f: Coord): int
    requires s in d && f in d
  {
    d[f] - d[s] - Manhattan(s, f)
  }

  /** A cheat worth recording: two distinct tracked cells at most MaxCheatDistance apart with a
      positive saving. */
  ghost predicate IsCheat(d: map<Coord, int>, s: Coord, f: Coord)
  {
    s in d && f in d && s != f && Manhattan(s, f) <= MaxCheatDistance && Saving(d, s, f) > 0
  }

  /** The inner loop for one start cell: every finish among the keys of the distance table,
      with the saving worked out through the distance to E as the source does. */
  method CheatsFrom(grid: Grid, d: map<Coord, int>, distanceToEnd: int, startCoord: Coord)
    returns (found: map<(Coord, Coord), int>)
    requires d.Keys == Open(grid) && startCoord in d
    ensures forall p :: p in found <==> p.0 == startCoord && IsCheat(d, p.0, p.1)
    ensures forall p :: p in found ==> IsCheat(d, p.0, p.1) && found[p] == Saving(d, p.0, p.1)
  {
    found := map[];
    var originalCost := distanceToEnd - d[startCoord];
    var remaining := d.Keys;
    while remaining != {}
      invariant remaining <= d.Keys
      invariant forall p :: p in found <==> p.0 == startCoord && p.1 in d.Keys - remaining && IsCheat(d, p.0, p.1)
      invariant forall p :: p in found ==> found[p] == Saving(d, p.0, p.1)
      decreases |remaining|
    {
      var finishCoord :| finishCoord in remaining;
      remaining := remaining - {finishCoord};
      var manhattanDistance := Manhattan(startCoord, finishCoord);
      if manhattanDistance > MaxCheatDistance {
        continue;
      }
      if startCoord == finishCoord {
        continue;
      }
      OpenMember(grid, finishCoord);
      var finishChar := grid[finishCoord.1][finishCoord.0];
      assert finishChar != '#';
      var newCost := distanceToEnd - d[finishCoord] + manhattanDistance;
      var timeSavings := originalCost - newCost;
      if timeSavings <= 0 {
        continue;
      }
      found := found[(startCoord, finishCoord) := timeSavings];
    }
  }

  /** Every recorded cheat: its start among the open cells and its finish among the keys of
      the distance table. */
  ghost function Cheats(d: map<Coord, int>): set<(Coord, Coord)>
  {
    set s, f | s in d && f in d && IsCheat(d, s, f) :: (s, f)
  }

  /** The loop over the grid: every open cell in row-major order is tried as the start of a
      cheat. */
  method CheatCompletionTimes(grid: Grid, d: map<Coord, int>, distanceToEnd: int)
    returns (cheats: map<(Coord, Coord), int>)
    requires d.Keys == Open(grid)
    ensures cheats.Keys == Cheats(d)
    ensures forall p :: p in cheats ==> cheats[p] == Saving(d, p.0, p.1)
  {
    cheats := map[];
    var y := 0;
    while y < |grid|
      invariant 0 <= y <= |grid|
      invariant forall p :: p in cheats <==> p.0.1 < y && IsCheat(d, p.0, p.1)
      invariant forall p :: p in cheats ==> cheats[p] == Saving(d, p.0, p.1)
    {
      var x := 0;
      while x < |grid[y]|
        invariant 0 <= x <= |grid[y]|
        invariant forall p :: p in cheats <==> Before(p.0, (x, y)) && IsCheat(d, p.0, p.1)
        invariant forall p :: p in cheats ==> cheats[p] == Saving(d, p.0, p.1)
      {
        OpenMember(grid, (x, y));
        if grid[y][x] != '#' {
          var found := CheatsFrom(grid, d, distanceToEnd, (x, y));
          cheats := cheats + found;
        }
        x := x + 1;
      }
      forall p: (Coord, Coord) | IsCheat(d, p.0, p.1) && p.0.1 == y ensures p.0.0 < x {
        OpenMember(grid, p.0);
      }
      y := y + 1;
    }
    forall p: (Coord, Coord) ensures p in cheats <==> p in Cheats(d) {
      OpenMember(grid, p.0);
    }
  }

  // ---- Grouping and counting ----

  /** The cheats among keys that save exactly v. */
  ghost function Tally(cheats: map<(Coord, Coord), int>, keys: set<(Coord, Coord)>, v: int): set<(Coord, Coord)>
  {
    set p | p in keys && p in cheats && cheats[p] == v
  }

  /** One more cheat adds one to the tally of its own saving and nothing to the others. */
  lemma TallyStep(cheats: map<(Coord, Coord), int>, keys: set<(Coord, Coord)>, p: (Coord, Coord), v: int)
    requires p in cheats && p !in keys
    ensures |Tally(cheats, keys + {p}, v)| == |Tally(cheats, keys, v)| + (if cheats[p] == v then 1 else 0)
  {
    if cheats[p] == v {
      assert Tally(cheats, keys + {p}, v) == Tally(cheats, keys, v) + {p};
    } else {
      assert Tally(cheats, keys + {p}, v) == Tally(cheats, keys, v);
    }
  }

  /** Counter(cheat_completion_times.values()): how many cheats save each amount. */
  method GroupSavings(cheats: map<(Coord, Coord), int>) returns (grouped: map<int, nat>)
    ensures forall v :: v in grouped <==> exists p :: p in cheats && cheats[p] == v
    ensures forall v :: v in grouped ==> grouped[v] == |Tally(cheats, cheats.Keys, v)|
  {
    grouped := map[];
    var remaining := cheats.Keys;
    while remaining != {}
      invariant remaining <= cheats.Keys
      invariant forall v :: v in grouped ==> grouped[v] == |Tally(cheats, cheats.Keys - remaining, v)|
      invariant forall v :: v in grouped <==> exists p :: p in cheats.Keys - remaining && cheats[p] == v
      decreases |remaining|
    {
      var p :| p in remaining;
      var done := cheats.Keys - remaining;
      assert cheats.Keys - (remaining - {p}) == done + {p};
      forall v ensures |Tally(cheats, done + {p}, v)| == |Tally(cheats, done, v)| + (if cheats[p] == v then 1 else 0) {
        TallyStep(cheats, done, p, v);
      }
      var v := cheats[p];
      if v !in grouped {
        assert Tally(cheats, done, v) == {};
      }
      grouped := grouped[v := if v in grouped then grouped[v] + 1 else 1];
      remaining := remaining - {p};
    }
    assert cheats.Keys - remaining == cheats.Keys;
  }

  /** The cheats saving at least threshold. */
  ghost function SavingAtLeast(cheats: map<(Coord, Coord), int>, threshold: int): set<(Coord, Coord)>
  {
    set p | p in cheats && cheats[p] >= threshold
  }

  /** The cheats whose saving is one of the amounts in amounts and at least threshold. */
  ghost function SavingAmongAtLeast(cheats: map<(Coord, Coord), int>, amounts: set<int>, threshold: int): set<(Coord, Coord)>
  {
    set p | p in cheats && cheats[p] in amounts && cheats[p] >= threshold
  }

  lemma SumStep(cheats: map<(Coord, Coord), int>, amounts: set<int>, v: int, threshold: int)
    requires v !in amounts
    ensures |SavingAmongAtLeast(cheats, amounts + {v}, threshold)| ==
      |SavingAmongAtLeast(cheats, amounts, threshold)| + (if v >= threshold then |Tally(cheats, cheats.Keys, v)| else 0)
  {
    var a, b := SavingAmongAtLeast(cheats, amounts, threshold), Tally(cheats, cheats.Keys, v);
    if v >= threshold {
      assert SavingAmongAtLeast(cheats, amounts + {v}, threshold) == a + b;
      assert a * b == {};
    } else {
      assert SavingAmongAtLeast(cheats, amounts + {v}, threshold) == a;
    }
  }

  /** sum(num_cheats for amount_savings, num_cheats in grouped_savings.items() if
      amount_savings >= threshold): the number of cheats saving at least threshold. */
  method SumBigSavings(grouped: map<int, nat>, ghost cheats: map<(Coord, Coord), int>, threshold: int)
    returns (total: nat)
    requires forall v :: v in grouped ==> grouped[v] == |Tally(cheats, cheats.Keys, v)|
    requires forall p :: p in cheats && cheats[p] >= threshold ==> cheats[p] in grouped
    ensures total == |SavingAtLeast(cheats, threshold)|
  {
    total := 0;
    var remaining := grouped.Keys;
    while remaining != {}
      invariant remaining <= grouped.Keys
      invariant total == |SavingAmongAtLeast(cheats, grouped.Keys - remaining, threshold)|
      decreases |remaining|
    {
      var amountSavings := AnyMember(remaining);
      var numCheats := grouped[amountSavings];
      SumStep(cheats, grouped.Keys - remaining, amountSavings, threshold);
      assert grouped.Keys - (remaining - {amountSavings}) == (grouped.Keys - remaining) + {amountSavings};
      if amountSavings >= threshold {
        total := total + numCheats;
      }
      remaining := remaining - {amountSavings};
    }
    assert SavingAmongAtLeast(cheats, grouped.Keys, threshold) == SavingAtLeast(cheats, threshold);
  }

  // ---- The script ----

  /** The answer's threshold: cheats saving at least 100 picoseconds. */
  const MinSaving: int := 100

  /** The cheats, over the distance table d, that save at least threshold. */
  ghost function GoodCheats(d: map<Coord, int>, threshold: int): set<(Coord, Coord)>
  {
    set p | p in Cheats(d) && Saving(d, p.0, p.1) >= threshold
  }

  /** The top level of 20/20.py without its printing: distances from S, the distance to E,
      every cheat with its saving, the savings grouped with 0 deleted, and the count of cheats
      saving at least 100; raises when S or E is missing. */
  method CountGoodCheats(grid: Grid) returns (r: Result<nat>, ghost d: map<Coord, int>)
    ensures r.Err? <==> !Occurs(grid, 'S') || !Occurs(grid, 'E')
    ensures r.Ok? ==> (exists s :: First(grid, s, 'S') && RaceDistances(grid, s, d)) && r.value == |GoodCheats(d, MinSaving)|
  {
    var originalDijkstrasDistances := SimpleDijkstrasAlgorithm(grid);
    if originalDijkstrasDistances.Err? {
      return Err(originalDijkstrasDistances.msg), map[];
    }
    var distances := originalDijkstrasDistances.value;
    d := distances;
    var endCoord := FindCharInGrid('E', grid);
    if endCoord.Err? {
      return Err(endCoord.msg), d;
    }
    OpenMember(grid, endCoord.value);
    var originalDistanceToEnd := distances[endCoord.value];
    var cheatCompletionTimes := CheatCompletionTimes(grid, distances, originalDistanceToEnd);
    var groupedSavings := GroupSavings(cheatCompletionTimes);
    groupedSavings := groupedSavings - {0};
    var total := SumBigSavings(groupedSavings, cheatCompletionTimes, MinSaving);
    assert SavingAtLeast(cheatCompletionTimes, MinSaving) == GoodCheats(d, MinSaving);
    return Ok(total), d;
  }
}
