/** Word search (4/wordsearch.py): occurrences of a term read forwards or backwards along
    rows, columns and both diagonals of a square letter grid, and the count of X-shaped
    "MAS" crossings. */
module WordSearch {

  datatype Result<T> = Ok(value: T) | Err(message: string)

  type Grid = seq<seq<char>>

  function Reverse(s: seq<char>): (r: seq<char>)
    ensures |r| == |s|
  {
    if s == [] then [] else [s[|s| - 1]] + Reverse(s[..|s| - 1])
  }

  /** Position k of the reverse holds position |s| - 1 - k of the original. */
  lemma {:induction false} ReverseAt(s: seq<char>)
    ensures forall k :: 0 <= k < |s| ==> Reverse(s)[k] == s[|s| - 1 - k]
  {
    if s != [] {
      ReverseAt(s[..|s| - 1]);
    }
  }

  lemma ReverseInvolution(s: seq<char>)
    ensures Reverse(Reverse(s)) == s
  {
    ReverseAt(s);
    ReverseAt(Reverse(s));
  }

  /** A window matches when it spells the term forwards or backwards; a palindromic term is
      still counted once. */
  predicate Matches(window: seq<char>, term: seq<char>)
  {
    window == term || Reverse(window) == term
  }

  /** Matching is the same for a term and its reverse. */
  lemma MatchesReversedTerm(window: seq<char>, term: seq<char>)
    ensures Matches(window, term) <==> Matches(window, Reverse(term))
  {
    ReverseInvolution(window);
    ReverseInvolution(term);
    if Reverse(window) == Reverse(term) {
      assert window == Reverse(Reverse(window));
    }
  }

  /** The number of windows of a line: len(line) - len(term) + 1, none when negative. */
  function Windows(line: seq<char>, term: seq<char>): nat
  {
    if |line| - |term| + 1 < 0 then 0 else |line| - |term| + 1
  }

  /** Matching windows among the first `upto` windows of a line. */
  function LineCount(line: seq<char>, term: seq<char>, upto: nat): (n: nat)
    requires upto <= Windows(line, term)
    ensures n <= upto
  {
    if upto == 0 then 0
    else LineCount(line, term, upto - 1) + (if Matches(line[upto - 1..upto - 1 + |term|], term) then 1 else 0)
  }

  function TotalWindows(grid: Grid, term: seq<char>): nat
  {
    if grid == [] then 0 else TotalWindows(grid[..|grid| - 1], term) + Windows(grid[|grid| - 1], term)
  }

  /** Matching windows over all rows; every window counts at most once. */
  function HorizontalCount(grid: Grid, term: seq<char>): (n: nat)
    ensures n <= TotalWindows(grid, term)
  {
    if grid == [] then 0
    else
      var line := grid[|grid| - 1];
      HorizontalCount(grid[..|grid| - 1], term) + LineCount(line, term, Windows(line, term))
  }

  /** The inner loop of find_horizontal_instances over one row. */
  method CountInLine(line: seq<char>, term: seq<char>) returns (inLine: nat)
    ensures inLine == LineCount(line, term, Windows(line, term))
  {
    var i := 0;
    inLine := 0;
    while i < |line| - |term| + 1
      invariant 0 <= i <= Windows(line, term)
      invariant inLine == LineCount(line, term, i)
    {
      inLine := TallyWindow(line, term, i, inLine);
      i := i + 1;
    }
  }

  /** One window of the inner loop: the tally grows by one exactly when the window spells the
      term forwards or backwards. */
  method TallyWindow(line: seq<char>, term: seq<char>, i: nat, inLine: nat) returns (inLine': nat)
    requires i < Windows(line, term) && inLine == LineCount(line, term, i)
    ensures inLine' == LineCount(line, term, i + 1)
  {
    var substring := line[i..i + |term|];
    inLine' := inLine;
    if substring == term || Reverse(substring) == term {
      inLine' := inLine + 1;
    }
  }

  /** find_horizontal_instances: slide a window of the term's length along each row. */
  method FindHorizontalInstances(grid: Grid, term: seq<char>) returns (found: nat)
    ensures found == HorizontalCount(grid, term)
  {
    found := 0;
    var r := 0;
    while r < |grid|
      invariant 0 <= r <= |grid|
      invariant found == HorizontalCount(grid[..r], term)
    {
      assert grid[..r + 1][..r] == grid[..r];
      var inLine := CountInLine(grid[r], term);
      found := found + inLine;
      r := r + 1;
    }
    assert grid[..r] == grid;
  }

  /** A square grid: at least one row, and every row as long as there are rows. */
  predicate IsSquare(grid: Grid)
  {
    |grid| > 0 && forall k :: 0 <= k < |grid| ==> |grid[k]| == |grid|
  }

  /** The diagonal string of the given length starting at row x, column y. */
  function Diagonal(grid: Grid, x: nat, y: nat, len: nat): (d: seq<char>)
    requires IsSquare(grid) && x + len <= |grid| && y + len <= |grid|
    ensures |d| == len && forall i :: 0 <= i < len ==> d[i] == grid[x + i][y + i]
  {
    seq(len, i requires 0 <= i < len => grid[x + i][y + i])
  }

  /** The number of diagonal start positions per axis: line length - len(term) + 1. */
  function Starts(grid: Grid, term: seq<char>): nat
    requires IsSquare(grid)
  {
    if |grid| - |term| + 1 < 0 then 0 else |grid| - |term| + 1
  }

  /** Matching diagonals starting in row x among the first `upto` columns. */
  function DiagRowCount(grid: Grid, term: seq<char>, x: nat, upto: nat): nat
    requires IsSquare(grid) && x < Starts(grid, term) && upto <= Starts(grid, term)
  {
    if upto == 0 then 0
    else DiagRowCount(grid, term, x, upto - 1) + (if Matches(Diagonal(grid, x, upto - 1, |term|), term) then 1 else 0)
  }

  /** One start row contributes at most one count per start column. */
  lemma {:induction false} DiagRowCountBound(grid: Grid, term: seq<char>, x: nat, upto: nat)
    requires IsSquare(grid) && x < Starts(grid, term) && upto <= Starts(grid, term)
    ensures DiagRowCount(grid, term, x, upto) <= upto
  {
    if upto > 0 {
      DiagRowCountBound(grid, term, x, upto - 1);
    }
  }

  /** Matching down-right diagonals starting in the rows below `upto`. */
  function DiagonalCount(grid: Grid, term: seq<char>, upto: nat): nat
    requires IsSquare(grid) && upto <= Starts(grid, term)
  {
    if upto == 0 then 0
    else DiagonalCount(grid, term, upto - 1) + DiagRowCount(grid, term, upto - 1, Starts(grid, term))
  }

  /** The characters of one diagonal, appended one at a time. */
  method ReadDiagonal(grid: Grid, x: nat, y: nat, len: nat) returns (chars: seq<char>)
    requires IsSquare(grid) && x + len <= |grid| && y + len <= |grid|
    ensures chars == Diagonal(grid, x, y, len)
  {
    chars := [];
    var i := 0;
    while i < len
      invariant 0 <= i <= len
      invariant chars == Diagonal(grid, x, y, i)
    {
      chars := chars + [grid[x + i][y + i]];
      i := i + 1;
    }
  }

  /** The inner loops of find_diagonal_instances_left_to_right for start row x. */
  method CountDiagonalsInRow(grid: Grid, term: seq<char>, x: nat) returns (inRow: nat)
    requires IsSquare(grid) && x < Starts(grid, term)
    ensures inRow == DiagRowCount(grid, term, x, Starts(grid, term))
  {
    var lineLength := |grid[0]|;
    assert lineLength - |term| + 1 == Starts(grid, term);
    inRow := 0;
    for y := 0 to lineLength - |term| + 1
      invariant inRow == DiagRowCount(grid, term, x, y)
    {
      inRow := TallyDiagonal(grid, term, x, y, inRow);
    }
  }

  /** The innermost step: the diagonal read from (x, y) adds one to the row's tally when it
      spells the term either way. */
  method TallyDiagonal(grid: Grid, term: seq<char>, x: nat, y: nat, inRow: nat) returns (inRow': nat)
    requires IsSquare(grid) && x < Starts(grid, term) && y < Starts(grid, term)
    requires inRow == DiagRowCount(grid, term, x, y)
    ensures inRow' == DiagRowCount(grid, term, x, y + 1)
  {
    var chars := ReadDiagonal(grid, x, y, |term|);
    inRow' := inRow;
    if chars == term || Reverse(chars) == term {
      inRow' := inRow + 1;
    }
  }

  /** find_diagonal_instances_left_to_right: every down-right diagonal of the term's length;
      both start coordinates range over the first row's length. */
  method FindDiagonalInstances(grid: Grid, term: seq<char>) returns (found: nat)
    requires IsSquare(grid)
    ensures found == DiagonalCount(grid, term, Starts(grid, term))
  {
    found := 0;
    var lineLength := |grid[0]|;
    ghost var starts := Starts(grid, term);
    assert lineLength == |grid|;
    var x := 0;
    while x < lineLength - |term| + 1
      invariant 0 <= x <= starts
      invariant found == DiagonalCount(grid, term, x)
    {
      var inRow := CountDiagonalsInRow(grid, term, x);
      assert DiagonalCount(grid, term, x + 1) == found + inRow;
      found := found + inRow;
      x := x + 1;
    }
  }

  /** zip(*grid) of a square grid: row j holds column j. */
  function Transpose(grid: Grid): (t: Grid)
    requires IsSquare(grid)
    ensures |t| == |grid| && IsSquare(t)
    ensures forall i, j :: 0 <= i < |grid| && 0 <= j < |grid| ==> t[j][i] == grid[i][j]
  {
    seq(|grid|, j requires 0 <= j < |grid| => seq(|grid|, i requires 0 <= i < |grid| => grid[i][j]))
  }

  lemma TransposeInvolution(grid: Grid)
    requires IsSquare(grid)
    ensures Transpose(Transpose(grid)) == grid
  {
    var t := Transpose(Transpose(grid));
    forall i | 0 <= i < |grid| ensures t[i] == grid[i] {
    }
  }

  /** Every row reversed. */
  function Flip(grid: Grid): (f: Grid)
    ensures |f| == |grid|
    ensures forall k :: 0 <= k < |grid| ==> f[k] == Reverse(grid[k])
  {
    seq(|grid|, k requires 0 <= k < |grid| => Reverse(grid[k]))
  }

  /** A diagonal of the flipped grid is an up-right anti-diagonal of the original. */
  lemma FlippedDiagonal(grid: Grid, x: nat, y: nat, len: nat)
    requires IsSquare(grid) && x + len <= |grid| && y + len <= |grid|
    ensures IsSquare(Flip(grid))
    ensures forall i :: 0 <= i < len ==> Diagonal(Flip(grid), x, y, len)[i] == grid[x + i][|grid| - 1 - (y + i)]
  {
    forall i | 0 <= i < len ensures Diagonal(Flip(grid), x, y, len)[i] == grid[x + i][|grid| - 1 - (y + i)] {
      ReverseAt(grid[x + i]);
    }
  }

  /** The part-one total: rows, columns (rows of the transpose), and both diagonal directions
      (the flipped grid's down-right diagonals are the original's down-left ones). */
  function TotalCount(grid: Grid, term: seq<char>): nat
    requires IsSquare(grid)
  {
    assert IsSquare(Flip(grid));
    HorizontalCount(grid, term) + HorizontalCount(Transpose(grid), term)
      + DiagonalCount(grid, term, Starts(grid, term))
      + DiagonalCount(Flip(grid), term, Starts(Flip(grid), term))
  }

  /** solve_problem_1: the rows must all have the first row's length and be as many as it is
      long; an empty grid fails on its first row. */
  method SolveProblem1(grid: Grid, term: seq<char>) returns (r: Result<nat>)
    ensures r.Ok? <==> IsSquare(grid)
    ensures r.Ok? ==> r.value == TotalCount(grid, term)
  {
    if |grid| == 0 {
      return Err("list index out of range");
    }
    var k := 0;
    while k < |grid|
      invariant 0 <= k <= |grid|
      invariant forall m :: 0 <= m < k ==> |grid[m]| == |grid[0]|
    {
      if |grid[k]| != |grid[0]| {
        return Err("line lengths differ");
      }
      k := k + 1;
    }
    if |grid[0]| != |grid| {
      return Err("grid is not square");
    }
    var horizontal := FindHorizontalInstances(grid, term);
    var vertical := FindHorizontalInstances(Transpose(grid), term);
    var leftToRight := FindDiagonalInstances(grid, term);
    var flipped := Flip(grid);
    var rightToLeft := FindDiagonalInstances(flipped, term);
    return Ok(horizontal + vertical + leftToRight + rightToLeft);
  }

  lemma {:induction false} LineCountReversedTerm(line: seq<char>, term: seq<char>, upto: nat)
    requires upto <= Windows(line, term)
    ensures LineCount(line, term, upto) == LineCount(line, Reverse(term), upto)
  {
    if upto > 0 {
      var w, rt := line[upto - 1..upto - 1 + |term|], Reverse(term);
      LineCountReversedTerm(line, term, upto - 1);
      MatchesReversedTerm(w, term);
      LineCountStep(line, rt, upto, w);
    }
  }

  /** The last of the first `upto` windows adds one exactly when it matches. */
  lemma LineCountStep(line: seq<char>, term: seq<char>, upto: nat, w: seq<char>)
    requires 0 < upto <= Windows(line, term) && w == line[upto - 1..upto - 1 + |term|]
    ensures LineCount(line, term, upto) == LineCount(line, term, upto - 1) + (if Matches(w, term) then 1 else 0)
  {
  }

  lemma {:induction false} HorizontalReversedTerm(grid: Grid, term: seq<char>)
    ensures HorizontalCount(grid, term) == HorizontalCount(grid, Reverse(term))
  {
    if grid != [] {
      HorizontalReversedTerm(grid[..|grid| - 1], term);
      var line := grid[|grid| - 1];
      LineCountReversedTerm(line, term, Windows(line, term));
    }
  }

  lemma {:induction false} DiagRowReversedTerm(grid: Grid, term: seq<char>, x: nat, upto: nat)
    requires IsSquare(grid) && x < Starts(grid, term) && upto <= Starts(grid, term)
    ensures DiagRowCount(grid, term, x, upto) == DiagRowCount(grid, Reverse(term), x, upto)
  {
    if upto > 0 {
      DiagRowReversedTerm(grid, term, x, upto - 1);
      MatchesReversedTerm(Diagonal(grid, x, upto - 1, |term|), term);
    }
  }

  lemma {:induction false} DiagonalReversedTerm(grid: Grid, term: seq<char>, upto: nat)
    requires IsSquare(grid) && upto <= Starts(grid, term)
    ensures DiagonalCount(grid, term, upto) == DiagonalCount(grid, Reverse(term), upto)
  {
    if upto > 0 {
      var s := Starts(grid, term);
      assert Starts(grid, Reverse(term)) == s;
      DiagonalReversedTerm(grid, term, upto - 1);
      DiagRowReversedTerm(grid, term, upto - 1, s);
    }
  }

  /** Searching for a term or for its reverse gives the same total. */
  lemma TotalReversedTerm(grid: Grid, term: seq<char>)
    requires IsSquare(grid)
    ensures TotalCount(grid, term) == TotalCount(grid, Reverse(term))
  {
    HorizontalReversedTerm(grid, term);
    HorizontalReversedTerm(Transpose(grid), term);
    DiagonalReversedTerm(grid, term, Starts(grid, term));
    DiagonalReversedTerm(Flip(grid), term, Starts(Flip(grid), term));
  }

  /** The corner test of part two: the set of the two corner letters holds both 'M' and 'S'. */
  predicate CornersAreMS(a: char, b: char)
  {
    'M' in {a, b} && 'S' in {a, b}
  }

  /** The corner pair is exactly one 'M' and one 'S', in either order. */
  lemma CornersExactlyMS(a: char, b: char)
    ensures CornersAreMS(a, b) <==> (a == 'M' && b == 'S') || (a == 'S' && b == 'M')
  {
  }

  /** Every row is at least as long as there are rows, so the leading square can be read; the
      empty grid qualifies. */
  predicate CoversSquare(grid: Grid)
  {
    forall k :: 0 <= k < |grid| ==> |grid[k]| >= |grid|
  }

  /** An interior 'A' whose two diagonal corner pairs are each {M, S}. */
  predicate IsXMas(grid: Grid, x: int, y: int)
    requires CoversSquare(grid) && 1 <= x < |grid| - 1 && 1 <= y < |grid| - 1
  {
    && grid[x][y] == 'A'
    && CornersAreMS(grid[x - 1][y - 1], grid[x + 1][y + 1])
    && CornersAreMS(grid[x - 1][y + 1], grid[x + 1][y - 1])
  }

  function XMasRowCount(grid: Grid, x: int, upto: int): (n: nat)
    requires CoversSquare(grid) && 1 <= x < |grid| - 1 && 1 <= upto <= |grid| - 1
    ensures n <= upto - 1
  {
    if upto == 1 then 0
    else XMasRowCount(grid, x, upto - 1) + (if IsXMas(grid, x, upto - 1) then 1 else 0)
  }

  /** X-MAS centres among the interior rows below `upto`; at most one per interior cell. */
  function XMasCount(grid: Grid, upto: int): (n: nat)
    requires CoversSquare(grid) && 1 <= upto <= |grid| - 1
    ensures n <= (upto - 1) * (|grid| - 2)
  {
    if upto == 1 then 0
    else XMasCount(grid, upto - 1) + XMasRowCount(grid, upto - 1, |grid| - 1)
  }

  /** solve_problem_2: scan the interior cells for an 'A' with both corner pairs {M, S}. */
  method SolveProblem2(grid: Grid) returns (found: nat)
    requires CoversSquare(grid)
    ensures |grid| >= 2 ==> found == XMasCount(grid, |grid| - 1)
    ensures |grid| < 3 ==> found == 0
  {
    found := 0;
    if |grid| < 2 {
      return;
    }
    var x := 1;
    while x < |grid| - 1
      invariant 1 <= x <= |grid| - 1
      invariant found == XMasCount(grid, x)
    {
      var y := 1;
      var inRow := 0;
      while y < |grid| - 1
        invariant 1 <= y <= |grid| - 1
        invariant inRow == XMasRowCount(grid, x, y)
      {
        var center := grid[x][y];
        if center != 'A' {
          y := y + 1;
          continue;
        }
        var leftDiagCorners := {grid[x - 1][y - 1], grid[x + 1][y + 1]};
        if 'M' !in leftDiagCorners || 'S' !in leftDiagCorners {
          y := y + 1;
          continue;
        }
        var rightDiagCorners := {grid[x - 1][y + 1], grid[x + 1][y - 1]};
        if 'M' !in rightDiagCorners || 'S' !in rightDiagCorners {
          y := y + 1;
          continue;
        }
        inRow := inRow + 1;
        y := y + 1;
      }
      found := found + inRow;
      x := x + 1;
    }
  }
}
