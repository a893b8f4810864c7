# Daily puzzle kernels, modelled and proved in Dafny

This project models the computational kernels of a repository of 24 daily programming-puzzle
solutions. Each solution file (Go for days 1-3, Python for the rest) becomes one Dafny module
in its own file, `dayNN_<topic>.dfy`. Each module holds a model of the file's core functions
in the file's own form: pure functions where the source computes values, methods with loop
invariants where it loops over local state, and classes or arrays where it updates data in
place. Beside the model are specification functions and the lemmas that tie the two together.

A few concepts are shared by several days and are defined once:

- `string_order.dfy` (`StringOrder`): Python's ordering of strings and sorted insertion, used
  by days 23 and 24.
- `decimal_text.dfy` (`DecimalText`): decimal digit strings and their values, used by days 7, 11,
  17, 21 and 24.
- `finite_sums.dfy` (`FiniteSums`): sums over integer ranges and their rearrangements, used by
  the counting arguments of day 19.
- `int_sets.dfy` (`IntSets`): picking some member of a set, as iterating over a Python set
  does; used by days 16 and 20.
- `shortest_paths.dfy` (`ShortestPaths`): a generic Dijkstra over an abstract extract-min
  priority queue, used by days 16, 18 and 20.
- `maze_grids.dfy` (`MazeGrids`): grids, tile lookup and the unit-cost Dijkstra that days 18
  and 20 share.

The modules take already-parsed input: integers, offsets, grids as sequences of rows. Reading
files, regular-expression scanning and printing are outside the model. Loops that the source
does not guarantee to terminate take a fuel bound; running out of fuel is a distinct result.

## Model

| member | source | states |
|---|---|---|
| ListDistance.SortInPlace | 1/day1.go:66-67 | the slice ends sorted ascending and holds the same multiset of values |
| ListDistance.CalculateDistance | 1/day1.go:61-75 | lists of different lengths give an error and are left untouched; otherwise both slices end sorted in place as permutations of their old contents, and the result is the sum of \|a[i] - b[i]\| over the sorted lists |
| ListDistance.PairwiseDistance | 1/day1.go:69-72 | the distance is never negative |
| ListDistance.SortedUnique | 1/day1.go:66-67 | two sorted lists with the same multiset are equal, so the sorted order is determined by the contents |
| ListDistance.DistanceIgnoresOrder | 1/day1.go:66-74 | the distance depends only on the multisets of the two lists, not on their input order |
| ListDistance.Occurrences | 1/day1.go:78-82 | the frequency of x in the right list is its multiplicity |
| ListDistance.OccurrencesSnoc | 1/day1.go:79-82 | counting one more right element raises its own frequency by one and no other |
| ListDistance.CountFrequencies | 1/day1.go:78-82 | the frequency map holds exactly the values of the right list, each mapped to its number of occurrences |
| ListDistance.SimilaritySnoc | 1/day1.go:85-93 | each further left element adds element × its occurrences in the right list |
| ListDistance.CalculateSimilarityScore | 1/day1.go:77-96 | the score is the sum over left elements of element × occurrences in the right list; it never fails and modifies neither slice |
| ListDistance.SimilarityIgnoresRightOrder | 1/day1.go:78-82 | the score depends only on the multiset of the right list |
| ListDistance.SimilarityOfAbsent | 1/day1.go:87-90 | a left element absent from the right list adds nothing |
| ReportSafety.IsPairSafe | 2/day2.go:58-69 | a pair is safe iff 1 <= \|a - b\| <= 3 and b moves from a in the stated direction |
| ReportSafety.CalculateIsReportSafe | 2/day2.go:71-88 | a report shorter than two levels is the fatal error with its message; otherwise the result is whether every adjacent pair is safe in the direction fixed by the first pair |
| ReportSafety.SafeReportIsMonotone | 2/day2.go:75-87 | a safe report is strictly monotone in the direction of its first pair, with every step between 1 and 3 |
| ReportSafety.Remove | 2/day2.go:102-105 | the spliced copy is one shorter, keeps the levels before i and shifts those after it |
| ReportSafety.Tally | 2/day2.go:92-118 | the count never exceeds the number of reports |
| ReportSafety.ErrorStops | 2/day2.go:72-74 | a fatal error in some report is the outcome of the whole batch |
| ReportSafety.CalculateSafeReports | 2/day2.go:92-118 | the loop counts the safe reports and, with margin, the unsafe reports that deleting one level makes safe, or stops at the first fatal error; the reports are never changed |
| ReportSafety.CheckReport | 2/day2.go:95-112 | the verdict on one report: counted when safe, or, with margin, when some copy with one level deleted is safe; a report too short to check is the fatal error |
| ReportSafety.Dampen | 2/day2.go:100-111 | an unsafe report is counted exactly when deleting some level makes it safe, and a two-level report is the fatal error, since its first copy is too short |
| ReportSafety.MarginCountsMore | 2/day2.go:92-118 | when the dampened count completes, so does the plain count, and the dampened count lies between the plain count and the number of reports |
| MulScanner.Commands | 3/day3.go:45-64 | the unsorted command list holds every do() match as an enabling command, followed by every don't() match as a disabling one, with their offsets |
| MulScanner.SortByBegin | 3/day3.go:34-36 | sorting by start offset leaves the commands ordered by begin and permutes them in place |
| MulScanner.CalculateDisabledRanges | 3/day3.go:38-91 | the commands are sorted by start and are a permutation of the matches, and the ranges are those of the scan: a don't() while enabled opens a range at its end, a do() while disabled closes it at its end, other commands are ignored, and a range still open at the end runs to the input length |
| MulScanner.ScanAscending | 3/day3.go:68-84 | on well-formed command offsets the closed ranges are ascending and non-overlapping and end no later than the last command; an open range starts after them |
| MulScanner.RangesAscending | 3/day3.go:68-88 | the emitted ranges, the final open one included, are ascending and non-overlapping |
| MulScanner.IndexInDisabledRange | 3/day3.go:93-101 | true iff i lies in some range, with both bounds included |
| MulScanner.ProductSums | 3/day3.go:172-187 | part one is the sum of all products; part two skips every product whose start lies in a disabled range |
| MulScanner.PartTwoIsPartOneMinusDisabled | 3/day3.go:172-187 | part two equals part one minus the skipped products, so with non-negative operands it never exceeds part one |
| MulScanner.EndOfDoCountsAsDisabled | 3/day3.go:79-81 | a mul that starts right where a do() ends is skipped by the inclusive test although the do() has enabled it (the finding below) |
| MulScanner.ScanCoversDisabled | 3/day3.go:71-84 | with the closing bound excluded, the scan covers exactly the offsets where the last finished command was a don't() |
| MulScanner.HalfOpenMatchesLastCommand | 3/day3.go:86-101 | with the closing bound excluded, the final ranges cover an offset inside the input exactly when the last finished command before it disabled multiplication |
| MulScanner.HalfOpenSumIsIntended | 3/day3.go:179-187 | the corrected part two sums exactly the products that the last finished command enables |
| WordSearch.ReverseAt | 4/wordsearch.py:11 | the reversal `s[::-1]` holds the characters of s from last to first |
| WordSearch.ReverseInvolution | 4/wordsearch.py:11 | reversing twice gives the string back |
| WordSearch.MatchesReversedTerm | 4/wordsearch.py:11 | a window matches a term exactly when it matches the reversed term |
| WordSearch.LineCount | 4/wordsearch.py:9-12 | a line contributes at most one count per window |
| WordSearch.HorizontalCount | 4/wordsearch.py:6-13 | the count is bounded by the total number of windows, len(row) - len(term) + 1 per row |
| WordSearch.CountInLine | 4/wordsearch.py:9-12 | the inner loop counts each window of the line that equals the term or its reverse once |
| WordSearch.TallyWindow | 4/wordsearch.py:10-12 | one window adds one to the line count exactly when it equals the term or its reverse |
| WordSearch.FindHorizontalInstances | 4/wordsearch.py:6-13 | find_horizontal_instances sums those window counts over the rows |
| WordSearch.Diagonal | 4/wordsearch.py:23-26 | the diagonal string of length len starting at (x, y) holds grid[x + i][y + i] |
| WordSearch.ReadDiagonal | 4/wordsearch.py:23-25 | the characters appended one at a time form that diagonal |
| WordSearch.DiagRowCountBound | 4/wordsearch.py:22-28 | one start row contributes at most one count per start column |
| WordSearch.CountDiagonalsInRow | 4/wordsearch.py:22-28 | the inner loop counts the matching diagonals that start in row x |
| WordSearch.TallyDiagonal | 4/wordsearch.py:23-28 | one diagonal read from (x, y) adds one to the tally exactly when it spells the term forwards or backwards |
| WordSearch.FindDiagonalInstances | 4/wordsearch.py:16-30 | the count of down-right diagonals, over start rows and columns 0 .. n - len(term), that spell the term either way |
| WordSearch.Transpose | 4/wordsearch.py:49 | the transpose of a square grid is square with t[j][i] == grid[i][j] |
| WordSearch.TransposeInvolution | 4/wordsearch.py:49 | transposing twice gives the grid back |
| WordSearch.Flip | 4/wordsearch.py:55 | the flipped grid reverses every row |
| WordSearch.FlippedDiagonal | 4/wordsearch.py:55-56 | a down-right diagonal of the flipped grid is a down-left diagonal of the grid |
| WordSearch.SolveProblem1 | 4/wordsearch.py:33-65 | an empty, ragged or non-square grid fails the assertions; otherwise the total is horizontal + vertical (on the transpose) + both diagonal directions (on the row-flipped grid) |
| WordSearch.TotalReversedTerm | 4/wordsearch.py:11 | the total is the same for the term and its reverse, since every window is tested both ways |
| WordSearch.HorizontalReversedTerm | 4/wordsearch.py:11 | the same for the horizontal count |
| WordSearch.LineCountReversedTerm | 4/wordsearch.py:9-12 | a line counts the same for the term and its reverse |
| WordSearch.DiagRowReversedTerm | 4/wordsearch.py:22-28 | a start row counts the same diagonals for the term and its reverse |
| WordSearch.DiagonalReversedTerm | 4/wordsearch.py:27 | the same for the diagonal count |
| WordSearch.CornersExactlyMS | 4/wordsearch.py:80-95 | the set of two corner letters holds 'M' and 'S' iff the corners are one 'M' and one 'S' in either order |
| WordSearch.XMasRowCount | 4/wordsearch.py:76-96 | one centre row contributes at most one count per interior column |
| WordSearch.XMasCount | 4/wordsearch.py:75-96 | at most one count per interior cell |
| WordSearch.SolveProblem2 | 4/wordsearch.py:68-98 | on a grid whose rows are at least as long as there are rows, the empty grid included, the count of interior 'A' cells of the leading square whose two diagonal corner pairs are each {M, S}; none for a grid narrower than three |
| PrintQueue.IndexOf | 5/day5.py:31 | list.index returns the first position holding the page |
| PrintQueue.ValidMeansAllRespected | 5/day5.py:23-34 | update_is_valid holds iff every rule is respected, a rule naming an absent page counting as respected |
| PrintQueue.MiddleNumber | 5/day5.py:37-38 | for an odd-length update the page at len // 2 has as many pages before it as after it |
| PrintQueue.SwapPages | 5/day5.py:58-61 | the tuple assignment, with its index lookups re-evaluated during the assignment, exchanges the first occurrences of the two pages |
| PrintQueue.ReorderUpdate | 5/day5.py:49-63 | reorder_update mutates its argument in place into the update with each violated rule's pair exchanged in rule order, and returns the same list object |
| PrintQueue.ApplyRulePermutes | 5/day5.py:57-61 | one rule's exchange keeps the pages of the update |
| PrintQueue.ReorderPermutes | 5/day5.py:49-63 | reorder_update keeps the update a permutation of its pages |
| PrintQueue.ReorderKeepsValid | 5/day5.py:54-57 | a valid update is left unchanged |
| PrintQueue.ApplyRuleRepairs | 5/day5.py:57-61 | in an update without repeated pages, the exchange makes the rule respected |
| PrintQueue.FixUpdateCorrect | 5/day5.py:67-70 | when the fix-up loop ends, the update is valid and holds the same pages; a valid update is returned as it is |
| PrintQueue.FixInPlace | 5/day5.py:67-70 | the in-place loop repeats reorder_update until the update is valid, within the fuel bound, and ends with the update the repair function gives |
| PrintQueue.InvalidUpdateAddsNothing | 5/day5.py:41-44 | an invalid update adds nothing to the part-one sum of middle pages |
| GuardWalk.TurnRight | 6/day6.py:48-56 | a turn always changes the direction |
| GuardWalk.FourTurnsAreIdentity | 6/day6.py:48-56 | four clockwise turns give the direction back, two never do |
| GuardWalk.Ahead | 6/day6.py:29-39 | the cell ahead is exactly one orthogonal step away |
| GuardWalk.FirstIndex | 6/day6.py:11 | list.index finds the first '^' of a row |
| GuardWalk.ClearRow | 6/day6.py:10-12 | clearing the guard keeps the row's length |
| GuardWalk.Lab.FindGuard | 6/day6.py:8-14 | the start is the first '^' of the last row that holds one; each row's first '^' is replaced by '.'; no '^' at all gives None |
| GuardWalk.Lab.WalkGuard | 6/day6.py:18-67 | the walk loop computes Walk: facing up, a '#' ahead turns clockwise without moving, stepping off an edge ends with loop = False, re-entering a recorded (cell, direction) ends with loop = True; the count is the number of distinct cells visited |
| GuardWalk.WalkFromBounds | 6/day6.py:21-22 | the visited cells are open cells that include the start |
| GuardWalk.WalkBounds | 6/day6.py:65-67 | a finished walk visits at least one cell and at most the number of open cells |
| GuardWalk.MoreFuelSameResult | 6/day6.py:27 | a walk that finishes within some step budget finishes the same way with any larger budget, so the fuel bound does not change results |
| GuardWalk.BoxedInNeverFinishes | 6/day6.py:47-59 | a guard with obstructions on all four sides turns for ever and never finishes |
| GuardWalk.Lab.CountObstructionLoops | 6/day6.py:72-84 | the trial loop counts the cells, skipping the start and existing obstructions, where an added '#' makes the walk loop; each trial cell is restored to '.', so the map ends unchanged |
| GuardWalk.Lab.ColumnTrials | 6/day6.py:74-81 | the trials of one column count the rows whose obstruction traps the guard, or stop at the first walk out of fuel; the map ends unchanged |
| GuardWalk.Lab.TryObstruction | 6/day6.py:77-81 | one trial walks the guard on the map with that cell made '#', then restores the map exactly |
| GuardWalk.Block | 6/day6.py:78 | placing an obstruction keeps the map's dimensions |
| GuardWalk.ColumnLoops | 6/day6.py:75-81 | one column adds at most one loop per row |
| GuardWalk.ColumnErrorStops | 6/day6.py:75-81 | a walk that exhausts its budget ends the column's count with that error |
| GuardWalk.LoopErrorStops | 6/day6.py:73-81 | the same for the whole count |
| BridgeRepair.DigitsLength | 7/day7.py:27 | str(n) has Digits(n) characters |
| BridgeRepair.ConcatIsText | 7/day7.py:26-28 | the concatenation used by get_sum, lhs · 10^digits(next) + next, equals int(str(lhs) + str(next)) |
| BridgeRepair.GetSum | 7/day7.py:16-31 | the result is either the target or 0 (False) |
| BridgeRepair.GetSumFindsReachable | 7/day7.py:16-31 | get_sum is non-zero exactly when the target is non-zero and some left-to-right choice of ×, + and concatenation reaches it |
| BridgeRepair.SumValidEquations | 7/day7.py:34-39 | the loop adds each solvable equation's target once, starting from its first number; an equation with no numbers fails as pop(0) does |
| BridgeRepair.ErrorStops | 7/day7.py:37 | a failing pop ends the whole sum with that error |
| BridgeRepair.Fixtures | 7/day7.py:16-31 | 190 = 10 × 19 and 3267 = 81 + 40 × 27 are found; 83 from 17 and 5 is not |
| Antinodes.GroupRow | 8/day8.py:12-15 | one row of the scan appends each non-'.' cell to its character's list |
| Antinodes.GroupCell | 8/day8.py:13-15 | from the grouping of every cell before (x, y) it produces the grouping of every cell up to (x, y): the keys are exactly the characters other than '.' seen so far, each listing exactly its cells in row-major order |
| Antinodes.GroupAntennas | 8/day8.py:9-15 | the keys are exactly the non-'.' characters on the map, and each list holds every cell of that character, in row-major order and in bounds |
| Antinodes.GroupedAll | 8/day8.py:11-15 | a scan that reaches the last row has grouped every cell |
| Antinodes.OnMapBetween | 8/day8.py:26-34 | the points between an antenna and an in-bounds point on its line are in bounds too, so stopping at the first off-map point misses none |
| Antinodes.AddPairAntinodes | 8/day8.py:22-34 | for one ordered pair the loop adds exactly the in-bounds points node_one + i·(node_two − node_one), i = 0, 1, 2, … |
| Antinodes.AddAntennaAntinodes | 8/day8.py:21-34 | the ordered pairs whose first antenna is j add exactly the in-bounds points of the walks from antenna j towards every other antenna |
| Antinodes.AntinodeByAntenna | 8/day8.py:21 | ordered pairs of distinct entries, taken by their first antenna, cover exactly the antinodes: a point is one iff it is reached from some antenna |
| Antinodes.GetAntinodeLocations | 8/day8.py:19-37 | the result is exactly the in-bounds points at a whole number of steps i >= 0 from one antenna of the list towards another, and every one lies on the map |
| Antinodes.AntennasAreAntinodes | 8/day8.py:25-34 | with two or more antennas, every antenna is itself an antinode (i = 0 and i = 1) |
| Antinodes.UnionOfAntinodes | 8/day8.py:39-42 | the union holds exactly the points that are antinodes of some frequency, whatever the key order |
| Antinodes.CountAntinodes | 8/day8.py:7-44 | the frequency map has exactly the non-'.' characters of the map as keys, each listing all its cells in row-major order, and the answer is the number of map cells that are antinodes of some frequency |
| DiskCompaction.Repeat | 9/day9.py:19 | [x] * n: n copies of x |
| DiskCompaction.ExpandDiskMap | 9/day9.py:9-24 | the loop builds both the block list and the span list of the dense map |
| DiskCompaction.ExpansionSpansNonEmpty | 9/day9.py:12-24 | a zero digit adds no span, so every span of the expansion has at least one block |
| DiskCompaction.ExpansionConsistent | 9/day9.py:12-24 | the block list is the span list flattened, it has as many blocks as the digits sum to, no span is empty, and file ids run 0, 1, 2, … in order: a zero digit is skipped without using an id |
| DiskCompaction.FindFileBlock | 9/day9.py:32-37 | the inner search finds the rightmost file block in (i, rightmost], or reports that there is none |
| DiskCompaction.SwapBlocks | 9/day9.py:39-42 | the tuple assignment exchanges two cells and keeps the multiset of cells |
| DiskCompaction.CompactProperties | 9/day9.py:26-42 | the compaction of a block list keeps its multiset of blocks, leaves no file block right of a free block, and leaves an already compact list as it is |
| DiskCompaction.CompactStep | 9/day9.py:39-42 | moving the rightmost file block into the leftmost free block does not change the final compaction |
| DiskCompaction.MoveLastFile | 9/day9.py:39-42 | the swap puts the rightmost file block into the leftmost free cell and frees its old cell; the cells from there on are free, the multiset of cells and the final compaction are kept |
| DiskCompaction.FillFreeBlock | 9/day9.py:27-42 | one free cell of the compaction: when no file block is left to its right the cells are unchanged and all free from i on; otherwise the rightmost file block moves into cell i, its old cell becomes free, everything right of it is free, and the multiset of cells is kept |
| DiskCompaction.CompactBlocks | 9/day9.py:26-42 | the array ends as the compaction of its initial cells: file blocks taken from the right fill the leftmost free cells, and (CompactProperties) the result has the same multiset of cells and no file block right of a free one |
| DiskCompaction.BlockChecksum | 9/day9.py:44-48 | the checksum is the sum of i × id over the non-free cells |
| DiskCompaction.BlockChecksumAppend | 9/day9.py:44-48 | the checksum of joined block lists is the first's plus the second's, the second's positions shifted |
| DiskCompaction.FirstFit | 9/day9.py:65-73 | the inner search returns the leftmost free span before i large enough for the file, or none |
| DiskCompaction.FindFreeSpan | 9/day9.py:65-73 | the scan from the left returns the leftmost free span before i with room for the file, or none |
| DiskCompaction.Candidate | 9/day9.py:58-73 | the move found is the rightmost unmoved file that has a large enough free span to its left, paired with the leftmost such span; none when no file can move |
| DiskCompaction.MoveFilePreserves | 9/day9.py:75-78 | a move keeps the total size and the set of file ids and puts the file where the free span was |
| DiskCompaction.ExchangeKeepsIds | 9/day9.py:75 | the exchange leaves an equal free span behind and keeps the file ids |
| DiskCompaction.InsertFreeKeepsIds | 9/day9.py:78 | inserting the leftover free span keeps the file ids |
| DiskCompaction.InsertTotalSize | 9/day9.py:78 | inserting a span adds its size to the total |
| DiskCompaction.DiskMap.UnfragmentOneFile | 9/day9.py:54-82 | returns True and changes nothing when no file can move; otherwise moves the chosen file into the chosen span, leaving an equal free span behind and inserting the leftover free space after it, records the file id as moved and returns False |
| DiskCompaction.DiskMap.MoveInto | 9/day9.py:75-80 | the move puts the file into the free span, frees its old place, inserts the leftover free span right after it, and records the id |
| DiskCompaction.DefragProperties | 9/day9.py:54-90 | repeating the one-file move until none is possible ends with no movable file left, the total size and the set of file ids unchanged |
| DiskCompaction.DiskMap.Defragment | 9/day9.py:86-90 | the loop ends in the state that repeating unfragment_one_file from the initial span list and moved set gives: no file left to move, with the total size and the set of file ids unchanged |
| DiskCompaction.CoalesceFreeSpans | 9/day9.py:92-108 | the merge loop computes Coalesce of the span list |
| DiskCompaction.MergeStateProperties | 9/day9.py:94-105 | while merging, the output spans and the pending free blocks flatten to the input, no two output free spans are adjacent and none is empty |
| DiskCompaction.CoalesceProperties | 9/day9.py:92-108 | coalescing keeps the blocks, leaves no two adjacent free spans and no empty free span |
| DiskCompaction.AddFileSpan | 9/day9.py:119-121 | the inner loop adds the weighted positions of one file span |
| DiskCompaction.ChecksumSnoc | 9/day9.py:119-121 | one more block of the file adds its position times the id to the checksum |
| DiskCompaction.SpanChecksum | 9/day9.py:111-121 | the span checksum equals the block checksum of the flattened spans |
| DiskCompaction.FreeBlocksScoreNothing | 9/day9.py:116-118 | free blocks add nothing to the checksum |
| TrailSearch.CellValue | 10/day10.py:5 | a cell reads as a height 0-9, or as -1 for '.'; any other character is rejected (where the source would raise) |
| TrailSearch.ParseLine | 10/day10.py:5 | a parsed row has one height per character, each the character's value |
| TrailSearch.ParseGrid | 10/day10.py:5 | a parsed grid has one parsed row per line |
| TrailSearch.ParsedHeights | 10/day10.py:5 | every height of a parsed grid lies in -1..9 |
| TrailSearch.FindTrailheads | 10/day10.py:8-13 | the list holds exactly the cells of height 0, in row-major order |
| TrailSearch.Successors | 10/day10.py:32-47 | the neighbours pushed are exactly the in-grid neighbours one higher than the cell |
| TrailSearch.ReachStep | 10/day10.py:20-47 | the reachable set is closed under uphill steps |
| TrailSearch.ReachLeast | 10/day10.py:20-47 | the reachable set is the least set containing the start and closed under uphill steps |
| TrailSearch.PushNeighbours | 10/day10.py:31-47 | the four guarded appends push exactly the successors, left, right, up, down |
| TrailSearch.VisitKeepsClosed | 10/day10.py:21-47 | visiting a popped cell keeps every explored cell's successors explored or still on the stack |
| TrailSearch.Score | 10/day10.py:15-49 | the score is the number of height-9 cells reachable from the trailhead by uphill steps |
| TrailSearch.ExploreTop | 10/day10.py:21-47 | one pop of the search keeps every cell met reachable, the summits found equal to the summits explored, and every successor of an explored cell explored or on the stack; it explores a new cell or shrinks the stack |
| TrailSearch.Trails | 10/day10.py:57-82 | the model's trail set from p, whose size the number of recorded tuples must equal: every trail in it starts at p |
| TrailSearch.TrailCountCountsTrails | 10/day10.py:54-85 | the number of distinct paths recorded equals the trail count |
| TrailSearch.TrailsAreHikes | 10/day10.py:57-82 | the model's trails from p are exactly the hikes that start at p: consecutive cells adjacent, each one higher, ending at height 9 |
| TrailSearch.TrailIsHike | 10/day10.py:57-82 | every trail in the model's trail set from p is a hike from p |
| TrailSearch.HikeIsTrail | 10/day10.py:57-82 | every hike from p is in the model's trail set from p |
| TrailSearch.Reach | 10/day10.py:20-47 | the cells reachable by uphill steps include the start and lie in the grid |
| TrailSearch.ScoreAtMostRating | 10/day10.py:15-85 | a trailhead's score never exceeds its rating |
| TrailSearch.NinesSplit | 10/day10.py:29-47 | below a summit, every summit reachable is reachable through one of the four climbing steps |
| TrailSearch.TrailRater.Explore | 10/day10.py:57-82 | exploring appends to the shared, never-popped path and records one new distinct tuple, a prefix of that path, per trail from the cell, never removing one |
| TrailSearch.Rating | 10/day10.py:54-85 | the rating is the number of distinct hikes from the trailhead |
| TrailSearch.ScoresAtMostRatings | 10/day10.py:51-87 | the score sum never exceeds the rating sum |
| TrailSearch.TrailheadSums | 10/day10.py:8-87 | both sums are taken over exactly the height-0 cells, and the score sum is at most the rating sum |
| StoneSplitting.SplitRecombines | 11/11.py:13-14 | the two halves of an even-width stone recombine into the stone: left × 10^(width/2) + right, with the right half below 10^(width/2) |
| StoneSplitting.Blink | 11/11.py:10-16 | one stone becomes one or two stones |
| StoneSplitting.BlinkAll | 11/11.py:8-17 | a row at least keeps its length and at most doubles in one blink |
| StoneSplitting.BlinkAllAppend | 11/11.py:9-16 | blinking acts on each stone in place: the blink of two joined rows is the two blinks joined |
| StoneSplitting.EvolveAppend | 11/11.py:6-17 | over any number of timesteps, joined rows evolve separately |
| StoneSplitting.EvolveNeverShrinks | 11/11.py:6-17 | the row never gets shorter |
| StoneSplitting.BlinkRow | 11/11.py:8-17 | one pass of the outer loop builds the blink of the whole row, stone by stone |
| StoneSplitting.StonesAfterTimestep | 11/11.py:3-19 | the result is the row after the given number of blinks |
| StoneSplitting.CountStonesStep | 11/11.py:28-34 | a stone's count one timestep later is the sum of the counts of what it becomes |
| StoneSplitting.EvolveEmpty | 11/11.py:3-19 | an empty row stays empty |
| StoneSplitting.CountStonesIsLength | 11/11.py:24-34 | the cached recursive count of one stone is the length of its row after that many blinks |
| StoneSplitting.SumCountsIsLength | 11/11.py:37 | summing the recursive counts over a row gives the length of the iterated row, so both parts agree |
| GardenRegions.Opposite | 12/12.py:14-23 | stepping one way and then the opposite way returns to the plot |
| GardenRegions.AdjacentSymmetric | 12/12.py:14-23 | adjacency is symmetric |
| GardenRegions.ReachableTrans | 12/12.py:44-62 | connection within a set of plots is transitive |
| GardenRegions.ReachableSym | 12/12.py:44-62 | connection within a set of plots is symmetric |
| GardenRegions.ReachableMono | 12/12.py:44-62 | a connection inside a set stays a connection inside any larger set |
| GardenRegions.ClosedHoldsReachable | 12/12.py:44-62 | a set closed under same-label steps holds everything connected to its members |
| GardenRegions.ReachableInsideComponent | 12/12.py:44-62 | a path between two plots of one region stays inside that region |
| GardenRegions.InGridIsCell | 12/12.py:56-61 | the bounds test holds exactly for the plots of the grid |
| GardenRegions.SourceGuardOnSquare | 12/12.py:56-61 | on a square grid the bounds test as written is the correct one |
| GardenRegions.SourceGuardOnNonSquare | 12/12.py:56-61 | on non-square grids the test as written refuses a plot in the grid and admits one outside it |
| GardenRegions.SameLabel | 12/12.py:48-50 | the plots with a given label lie in the grid |
| GardenRegions.Component | 12/12.py:38-65 | a region holds only plots with the start's label |
| GardenRegions.FillDone | 12/12.py:54-62 | after the four directions every newly added plot has all its same-label neighbours in the region |
| GardenRegions.ExploreRegion | 12/12.py:44-62 | the flood fill only adds same-label plots connected to the start, adds the start when its label matches, and leaves every added plot with its same-label neighbours added |
| GardenRegions.GetRegionElements | 12/12.py:38-65 | the region found is exactly the set of plots connected to the start through plots of its label |
| GardenRegions.ComponentHasStart | 12/12.py:38-65 | a region contains its start |
| GardenRegions.ComponentOfMember | 12/12.py:38-65 | any plot of a region has the region's label and finds the same region |
| GardenRegions.ComponentConnected | 12/12.py:38-65 | every region is connected |
| GardenRegions.RegionsPartition | 12/12.py:68-80 | the regions cover every plot, two regions sharing a plot are equal, each region is non-empty, connected, inside the grid and of one label |
| GardenRegions.ScanStep | 12/12.py:74-79 | visiting a plot either skips an explored plot or adds its whole region to the explored plots and to the regions |
| GardenRegions.ScanRow | 12/12.py:74-79 | one row of the scan keeps the explored plots equal to the union of the regions of the plots scanned |
| GardenRegions.GetRegionCoordinatesForGrid | 12/12.py:68-80 | the regions returned are exactly the regions of the grid |
| GardenRegions.CornerPosIsDiagonal | 12/12.py:130-137 | the corner position picked from the two neighbours is the diagonal plot between them |
| GardenRegions.MarksUnion | 12/12.py:86-153 | the fence sides or corners of disjoint sets of plots add up |
| GardenRegions.MarksMono | 12/12.py:86-153 | a larger set of plots has at least as many fence sides or corners |
| GardenRegions.LonePlot | 12/12.py:86-153 | a lone plot has perimeter 4 and 4 sides |
| GardenRegions.PerimeterDone | 12/12.py:96-98 | after the four directions the count is the number of fence sides of the plots added |
| GardenRegions.PerimeterExplore | 12/12.py:89-98 | each call counts 1 for a step out of the region and otherwise the fence sides of the plots it adds, and adds only plots connected to it |
| GardenRegions.ReachedAll | 12/12.py:86-100 | a search from one plot of a connected region reaches the whole region |
| GardenRegions.CalculatePerimeter | 12/12.py:86-100 | the perimeter is the number of plot sides facing outside a connected region; at most that for a region that is not connected |
| GardenRegions.CornersAt | 12/12.py:117-144 | the corners counted at one plot are its outer corners (both neighbours outside) and inner corners (both inside, diagonal outside) |
| GardenRegions.SidesDone | 12/12.py:146-149 | after the four directions the corners counted are those of the plots added |
| GardenRegions.SidesExplore | 12/12.py:113-151 | each call counts the corners of exactly the plots it explores, all connected to the start |
| GardenRegions.CalculateNumSides | 12/12.py:110-153 | the number of sides is the number of corners of a connected region; at most that otherwise |
| GardenRegions.PriceRemove | 12/12.py:103-165 | the price sum over a set of regions is one region's area × measure plus the rest |
| GardenRegions.RegionMeasure | 12/12.py:104-164 | the measure of a region is its fence sides or its corners |
| GardenRegions.SumPrices | 12/12.py:161-165 | the loop sums area × measure over the regions |
| GardenRegions.FencePrice | 12/12.py:83-105 | the first part's price: area × perimeter summed over the grid's regions |
| GardenRegions.GetCostForGrid | 12/12.py:156-167 | the second part's price: area × number of sides summed over the grid's regions |
| ClawMachine.OvershootStays | 13/13.py:58-59 | once the x total passes the prize, more B presses never win, so the inner loop's break loses no win |
| ClawMachine.GetComboForWinning | 13/13.py:44-61 | a combination returned wins, lies within 0..100 presses each, and is the first win in (a, b) order; None exactly when no combination within the bounds wins |
| ClawMachine.FirstWinCanCostMore | 13/13.py:52-57 | the first win in search order need not be the cheapest: with A = (4, 4), B = (1, 1) and the prize at (4, 4) the search returns (0, 4) for 4 tokens while (1, 0) costs 3 |
| ClawMachine.Nearest | 13/13.py:73-74 | round(n / d) is an integer q nearest the quotient: 2 · abs(n − q·d) ≤ abs(d) |
| ClawMachine.NearestOfMultiple | 13/13.py:73-79 | rounding an exact quotient q·d / d gives q back |
| ClawMachine.OptimizedIntCombo | 13/13.py:64-79 | the solve raises exactly when the button matrix is singular (determinant 0), with numpy's message |
| ClawMachine.WinSolvesSystem | 13/13.py:64-70 | a winning (a, b) solves Cramer's rule: a·det and b·det are the two numerators |
| ClawMachine.SystemSolutionWins | 13/13.py:64-70 | conversely, with a non-zero determinant a solution of Cramer's rule wins on both axes |
| ClawMachine.UniqueWin | 13/13.py:64-70 | with a non-zero determinant at most one combination wins, which is why a single solve suffices |
| ClawMachine.SolveFindsWin | 13/13.py:64-79 | whenever some integer combination wins, optimized_int_combo returns exactly it |
| ClawMachine.SolveIsSound | 13/13.py:73-79 | while abs(det) is below 10^4 the tolerance admits only exact quotients, so every combination returned wins |
| ClawMachine.ComboTokensIsWinCost | 13/13.py:92-95 | under that determinant bound, a machine adds the token cost 3a + b of its one winning combination, or 0 when none wins |
| ClawMachine.TokenTotalFails | 13/13.py:90-95 | the token total fails exactly when some machine has a singular button matrix |
| ClawMachine.TokenTotalErrorStops | 13/13.py:90-95 | an error part-way through the machines is the error of the whole loop |
| ClawMachine.AlterSpecs | 13/13.py:82-88 | altered_specs keeps every machine's buttons, so its determinant, and moves both prize coordinates by 10^13 |
| ClawMachine.TotalTokensFor | 13/13.py:90-95 | the loop over the altered machines returns the token total: the first singular machine's error, otherwise the sum over machines of the tokens for the combination the solve returns |
| RobotQuadrants.FloorMod | 14/14.py:39-40 | Python's % by a positive modulus: the result lies in 0..m-1 and differs from the operand by a multiple of m, even for negative operands |
| RobotQuadrants.EndPosition | 14/14.py:38-41 | the robot ends inside the 101 × 103 grid, at its straight-line position wrapped around both axes |
| RobotQuadrants.Quadrant | 14/14.py:49-63 | 0 exactly on a middle row or column; otherwise 2, 4, 1, 3 for top-left, bottom-left, top-right, bottom-right |
| RobotQuadrants.CountInQuadrant | 14/14.py:67 | the count is 0 exactly when no robot is in the quadrant, and never more than the robots |
| RobotQuadrants.SafetyFactorZero | 14/14.py:66-69 | the safety factor is 0 exactly when one of the four quadrants is empty |
| RobotQuadrants.MiddleRobotsIgnored | 14/14.py:48-69 | a robot on a middle line does not change the safety factor |
| RobotQuadrants.QuadrantsPartition | 14/14.py:49-67 | every robot is counted in exactly one of the five classes |
| WarehouseRobot.ParseMovement | 15/15.py:10-30 | a character is a movement exactly when it is one of ^ v < > |
| WarehouseRobot.NonWallIsInterior | 15/15.py:65-73 | in a grid bordered by walls every non-wall tile is off the border, so each neighbour read stays in the grid |
| WarehouseRobot.SetCell | 15/15.py:81-90 | writing one tile changes that tile and no other |
| WarehouseRobot.ShiftOnRay | 15/15.py:51-60 | the cell j moves ahead lies on the ray from p at distance j |
| WarehouseRobot.RunLength | 15/15.py:65-73 | the run can_move walks to the first empty tile is at least one step long |
| WarehouseRobot.Pushed | 15/15.py:75-91 | do_move empties the start tile and moves every tile of the run one step on, up to the first empty tile; tiles off the ray and beyond that empty tile are unchanged, and no wall is added or removed |
| WarehouseRobot.PushedRunMoves | 15/15.py:85-91 | after the downstream push and the final two writes, each tile of the run sits one step further on |
| WarehouseRobot.MovedPastNext | 15/15.py:89-90 | the final two writes of do_move leave the tiles the downstream push moved in place |
| WarehouseRobot.PushedRunBeyond | 15/15.py:80-91 | the tiles beyond the first empty tile of the run are not touched |
| WarehouseRobot.PushedStep | 15/15.py:86-91 | once the run ahead has moved on, moving the tile at pos into the freed cell and emptying pos keeps the walls, changes nothing off the ray and leaves the tile one step ahead |
| WarehouseRobot.TilesRowUpdate | 15/15.py:81-90 | replacing one row changes the tile multiset by that row's difference |
| WarehouseRobot.SetCellTiles | 15/15.py:81-90 | writing one tile swaps one tile in the multiset |
| WarehouseRobot.MoveTileKeepsTiles | 15/15.py:80-83 | moving a tile into an empty tile keeps the multiset of tiles |
| WarehouseRobot.PushedKeepsTiles | 15/15.py:75-91 | a push keeps the multiset of tiles: no box is created or lost |
| WarehouseRobot.StepKeepsRobot | 15/15.py:95-97 | after a movement the robot is still on its tile, the walls still border the grid and the tiles are kept |
| WarehouseRobot.Simulate | 15/15.py:94-97 | after any sequence of movements the robot is on its tile, the grid is still walled and no tile is created or lost |
| WarehouseRobot.FindRobot | 15/15.py:32-39 | the robot found is the first '@' in row-major order; None when there is none |
| WarehouseRobot.Warehouse.DoMove | 15/15.py:75-91 | the in-place recursive move leaves the grid as the push defines it |
| WarehouseRobot.Warehouse.MoveOnce | 15/15.py:95-97 | one movement: the robot moves when can_move allows and the grid is updated in place |
| WarehouseRobot.Warehouse.DoMovements | 15/15.py:62-97 | the grid and robot after the loop are those of the simulation of all movements |
| WarehouseRobot.SimulateSnoc | 15/15.py:94-97 | simulating one more movement is one more step from the state reached |
| WarehouseRobot.RowGpsByBoxes | 15/15.py:106-109 | a row's GPS sum is 100 × y per box plus the boxes' column numbers |
| WarehouseRobot.CalculateGpsSum | 15/15.py:104-111 | the loops add 100y + x for each box |
| ReindeerMaze.RelativeCoord | 16/16.py:63-72 | each movement shifts one coordinate by one: ^ up, v down, < left, > right |
| ReindeerMaze.ReverseDirection | 16/16.py:89-98 | the reverse of a movement is a different movement |
| ReindeerMaze.ReverseInvolution | 16/16.py:89-98 | reversing twice gives the movement back |
| ReindeerMaze.ReverseStepsBack | 16/16.py:63-98 | a step followed by a step in the reverse direction returns to the start |
| ReindeerMaze.ValidMoves | 16/16.py:78-87 | the valid moves are the three distinct movements other than the reverse of the previous one |
| ReindeerMaze.Edges | 16/16.py:130-143 | each state has one edge per valid move |
| ReindeerMaze.EdgeShape | 16/16.py:130-143 | an edge either goes one cell forward at cost 1 keeping the facing, or turns in place at cost 1000 to a facing that is neither the same nor the reverse |
| ReindeerMaze.FacingsComplete | 16/16.py:102-113 | the four facings cover every movement |
| ReindeerMaze.InitStates | 16/16.py:106-114 | the distance table has a key for each facing of each non-wall cell, all at the sentinel 10^18 |
| ReindeerMaze.MinOverFacings | 16/16.py:152-157 | the answer is the least distance over the four facings at E |
| ReindeerMaze.LowestScoreHolds | 16/16.py:105-157 | with sound and optimal final distances, the least over E's facings is the lowest score of any walk from S facing east to E |
| ReindeerMaze.DijkstrasAlgorithm | 16/16.py:105-157 | an error exactly when S or E is missing (find_char_in_grid raises); otherwise the lowest score from the first S facing east to the first E |
| ReindeerMaze.WalledNeighbour | 16/16.py:234-235 | in a wall-bordered grid every neighbour of an open cell is in the grid |
| ReindeerMaze.IsRouteAvoidsLess | 16/16.py:240-241 | a route that avoids more cells still avoids fewer |
| ReindeerMaze.CellsMember | 16/16.py:212-259 | a position is among the cells exactly when it is in the grid |
| ReindeerMaze.PathGrows | 16/16.py:228-230 | each recursive call has one more cell on its path, so the search ends |
| ReindeerMaze.MinOfScores | 16/16.py:259 | the least of a non-empty set of scores |
| ReindeerMaze.ExploreStep | 16/16.py:233-254 | each explored move keeps every score collected the cost of a route from the cell avoiding the path |
| ReindeerMaze.ExploreMove | 16/16.py:233-254 | one move of the loop skips walls and cells on the path; otherwise the score explore finds is kept, and every kept score is still the cost of a real route no lower than the best known |
| ReindeerMaze.Explore | 16/16.py:212-259 | a score other than -1 is the cost so far plus the cost of a real route to E avoiding the path, and not below the best known; the best known never grows; E is appended to the shared path |
| ReindeerMaze.FindHighestScoringRoute | 16/16.py:207-262 | an error exactly when there is no S; otherwise a score other than -1 is the cost of a real route from S facing east to E |
| RegisterMachine.Pow2 | 17/17.py:41 | 2 ** n is at least 1, so the division is defined |
| RegisterMachine.XorUnfold | 17/17.py:57-64 | ^ on non-negative integers works bit by bit: the low bit is the XOR of the low bits and the rest is the XOR of the rest |
| RegisterMachine.XorSelfInverse | 17/17.py:57-64 | XOR with the same value twice restores the register |
| RegisterMachine.XorZero | 17/17.py:57-64 | XOR with 0 changes nothing |
| RegisterMachine.XorLowBits | 17/17.py:57 | bxl with an operand below 8 leaves B // 8 unchanged |
| RegisterMachine.ResolveCombo | 17/17.py:26-37 | operands 0-3 are literal, 4-6 read A, B, C, and 7 or more raises the assertion |
| RegisterMachine.Div | 17/17.py:39-42 | do_div fails exactly when the combo operand does, and writes only the target register |
| RegisterMachine.DivFloor | 17/17.py:39-42 | the register written is A // 2^operand: q × 2^k ≤ A < (q + 1) × 2^k |
| RegisterMachine.Step | 17/17.py:49-73 | one instruction adds at most one output value and keeps earlier output; the pointer advances by 2, or for jnz jumps to the operand when A ≠ 0 and the operand is not the pointer itself; it fails exactly when the operand lies past the program, the opcode is 8 or more (the OPCODES lookup raises) or a combo operand is 7 or more, with the matching message |
| RegisterMachine.StepEffects | 17/17.py:53-70 | each opcode changes only its own register or the output: bxl and bxc XOR B, bst leaves B below 8, jnz and out keep the registers, out adds one value below 8, adv/bdv/cdv write A, B, C |
| RegisterMachine.ExecOutput | 17/17.py:49-73 | the output only grows and every value is below 8 |
| RegisterMachine.MoreFuelSameOutcome | 17/17.py:49-73 | a run that halts or fails within some fuel gives the same outcome with more fuel |
| RegisterMachine.Join | 17/17.py:75 | the joined output has one character per value and a comma between neighbours |
| RegisterMachine.JoinLayout | 17/17.py:75 | value k sits at position 2k and commas at the odd positions |
| RegisterMachine.UnjoinJoin | 17/17.py:66-75 | reading every other character back recovers the output values |
| RegisterMachine.JoinTail | 17/17.py:66-75 | dropping the first value and its comma from the joined string leaves the join of the remaining values |
| RegisterMachine.Computer.DoDiv | 17/17.py:39-42 | the in-place division writes the register as Div defines, and leaves the registers unchanged on the error |
| RegisterMachine.Computer.ExecuteInstruction | 17/17.py:50-73 | one pass of the loop body updates the register file in place exactly as Step describes and yields Step's pointer and output; on an error the registers are untouched |
| RegisterMachine.Computer.RunProgram | 17/17.py:44-75 | the loop's outcome is the bounded execution from pointer 0 with no output, the registers end as that execution leaves them, and every output value is below 8 |
| FallingBytes.PyIndex | 18/18.py:23 | Python list indexing: an index in -n..n-1 addresses a cell, a negative one counted from the end; anything else raises IndexError |
| FallingBytes.FallenStep | 18/18.py:22-23 | one more byte adds its own landing cell and nothing else |
| FallingBytes.FallenGrows | 18/18.py:22-23 | more bytes cover more cells |
| FallingBytes.SimulateGridAfterTimesteps | 18/18.py:19-31 | the grid is built exactly when every one of the first bytes lands on the grid, and then holds '#' on exactly the fallen cells and '.' elsewhere |
| FallingBytes.SimpleDijkstrasAlgorithm | 18/18.py:42-77 | an error exactly when the grid is empty or the bottom-right corner is not a key of the distance table; otherwise INFINITY_VALUE exactly when no walk from (0, 0) reaches the corner, and else the least number of steps of such a walk |
| FallingBytes.FreeCellsMember | 18/18.py:45-52 | the search's keys are the start and the in-grid cells no byte has fallen on |
| FallingBytes.GridAfterCells | 18/18.py:19-52 | the grid after the fall has the corner (size-1, size-1) as target and the free cells as keys |
| FallingBytes.ClearBeforeStep | 18/18.py:85-90 | a clear step extends the clear prefix of the scan |
| FallingBytes.ScanStep | 18/18.py:86-88 | one turn raises exactly when the build or the lookup does; otherwise true exactly when the corner is cut off after i bytes |
| FallingBytes.FirstBlockingByte | 18/18.py:85-90 | the scan stops at the first step with no way through and reports input_coords[i - 1] (the last byte for i = 0); every earlier step had a way through; an error comes from the first step that raises |
| FallingBytes.ScanMemory | 18/18.py:83-90 | on the 71 × 71 memory the scan stops at the first step with no way through and reports input_coords[i - 1] (the last byte for i = 0); every earlier step had a way through; an error comes from the first step that raises |
| FallingBytes.StaysBlocked | 18/18.py:85-90 | once the corner is cut off, more bytes keep it cut off |
| FallingBytes.ScanIsFirstBlock | 18/18.py:85-90 | every later step that runs is blocked too, so the first blocked step is where the way is cut for good |
| TowelDesigns.WalkConcat | 19/19.py:33-38 | following u and then v through the trie is following u + v |
| TowelDesigns.WalkOff | 19/19.py:35-37 | once a walk falls off the trie, no longer word stays on it |
| TowelDesigns.InsertAtContains | 19/19.py:22-29 | inserting a towel adds exactly that word to the words of the trie |
| TowelDesigns.InsertAtTexts | 19/19.py:24-28 | each node created holds as text the prefix leading to it |
| TowelDesigns.BuildTrie | 19/19.py:19-30 | the root has no text, every node's text is its prefix, and the trie holds exactly the towels as words |
| TowelDesigns.FindTrie | 19/19.py:33-43 | a node is returned exactly when the word is a towel; it is the node the word leads to and its text is the word |
| TowelDesigns.FindPrefixMatches | 19/19.py:61-67 | the matches are the prefix alone when it is a towel, and empty otherwise |
| TowelDesigns.EndsMembers | 19/19.py:117-126 | the towel ends after start are exactly the positions j with design[start:j] a towel |
| TowelDesigns.PushTowelEnds | 19/19.py:117-126 | the inner crawl pushes exactly the end positions j after the start for which design[start:j] is a towel, keeping the stack below |
| TowelDesigns.ExploredUnsplittable | 19/19.py:111-132 | a set of positions closed under towel steps and missing the end holds no position from which the rest splits into towels |
| TowelDesigns.ExpandedWithinWeight | 19/19.py:111-132 | the search with no limit stops: it expands at most as many indices as there are towel paths from the stack, so from index 0 at most the number of towel paths from 0 |
| TowelDesigns.CheckOneWayExitEarly | 19/19.py:107-132 | None exactly when the unlimited search would expand more than the limit; otherwise True exactly when the design splits into towels |
| TowelDesigns.SumFromOff | 19/19.py:157-159 | once the crawl falls off the trie no more ways are added |
| TowelDesigns.GetNumDesignsRecursive | 19/19.py:146-164 | the count is the number of ways to write the design as a sequence of towels, the empty design counting once |
| TowelDesigns.FigureOutNumPotentialTowelDesigns | 19/19.py:143-166 | the number of towel sequences that spell the design |
| TowelDesigns.SplittableIffWays | 19/19.py:70-166 | the rest of a design from a position splits into towels exactly when it has at least one way |
| TowelDesigns.FirstLast | 19/19.py:143-166 | counting ways by the first towel or by the last towel gives the same number |
| TowelDesigns.ReverseAt | 19/19.py:73 | s[::-1] holds s's characters in reverse order |
| TowelDesigns.ReverseReverse | 19/19.py:73 | reversing twice gives the string back |
| TowelDesigns.ReverseSlice | 19/19.py:73 | a slice of the reversed string is the reverse of the mirrored slice |
| TowelDesigns.ReversedWaysBack | 19/19.py:54-183 | with the reversed towels the reversed design has as many ways as the design counted by last towel |
| TowelDesigns.ReversedWays | 19/19.py:54-183 | the reversed design with the reversed trie has the same number of ways and the same possibility as the design with the forward trie |
| TowelDesigns.ReversedTowels | 19/19.py:54 | the reversed towel set holds exactly the words whose reverse is a towel |
| TowelDesigns.DesignIsPossible | 19/19.py:70-94 | None exactly when the unlimited search on the reversed design would expand more than the fuel; otherwise True exactly when the reversed design splits into towels |
| TowelDesigns.DesignIsPossibleHackyForwardBackwards | 19/19.py:104-140 | the assertion fails (None) exactly when both directions need more than ITERATION_LIMIT expansions; the flag is True exactly when the forward search finishes in time; the answer is about the forward design when the flag is True and the reversed design with the reversed trie otherwise, and with a reversed trie it says whether the design is possible |
| TowelDesigns.WaysCoverPossible | 19/19.py:169-189 | the count of possible designs is at most the total number of ways and at most the number of designs |
| TowelDesigns.TallyDesign | 19/19.py:174-187 | for one design: None exactly when both searches give up; an impossible design adds no ways; with a reversed trie the pair is whether the design is possible and its number of ways |
| TowelDesigns.FigureOutHowManyDesignsPossible | 19/19.py:169-189 | None exactly when some design defeats both searches; otherwise, with a reversed trie, the pair is the number of possible designs and the total number of ways |
| TowelDesigns.ProcessTowels | 19/19.py:46-58 | the two tries hold exactly the towels and their reverses; None exactly when some design defeats both searches, and otherwise the number of possible designs and their total ways |
| RaceCheats.SimpleDijkstrasAlgorithm | 20/20.py:41-78 | raises exactly when there is no S; otherwise, from the first S in row-major order (as find_char_in_grid returns it), the table has a key per open cell, 0 at S, every distance below the sentinel is the length of a real walk from S, and no walk is shorter than the distance recorded |
| RaceCheats.DisplacementAppend | 20/20.py:95-102 | the displacement of joined move lists is the sum of their displacements |
| RaceCheats.GetEndPos | 20/20.py:95-102 | the end position is the start shifted by the sum of the moves |
| RaceCheats.CheatsFrom | 20/20.py:112-132 | the cheats recorded from one start are exactly the distinct finishes within 20 steps with a positive saving, each with saving d[f] − d[s] − distance, which the source's difference of two costs to E amounts to |
| RaceCheats.CheatCompletionTimes | 20/20.py:105-132 | the table holds exactly the cheats of the track, each with its saving |
| RaceCheats.TallyStep | 20/20.py:136 | counting one more cheat adds one to the count of its saving |
| RaceCheats.GroupSavings | 20/20.py:136 | the Counter has a key for exactly the savings that occur, each mapped to the number of cheats with that saving |
| RaceCheats.SumStep | 20/20.py:139 | adding one saving amount to the sum adds its count when it is at least the threshold |
| RaceCheats.SumBigSavings | 20/20.py:137-139 | the sum over the grouped savings at or above the threshold is the number of cheats saving that much; deleting the count for 0 changes nothing |
| RaceCheats.CountGoodCheats | 20/20.py:83-139 | raises exactly when S or E is missing; otherwise the answer is the number of cheats saving at least 100 picoseconds on the distances from the first S in row-major order |
| KeypadConundrum.Repeat | 21/21.py:122 | c * n has length n |
| KeypadConundrum.RepeatAt | 21/21.py:122 | every character of c * n is c |
| KeypadConundrum.MultisetRepeat | 21/21.py:122 | c * n holds c n times and nothing else |
| KeypadConundrum.ElementStock | 21/21.py:114-122 | the element string holds |dx| horizontal and |dy| vertical arrows |
| KeypadConundrum.ArrangementStock | 21/21.py:123 | every arrangement built is a permutation of the element string's letters |
| KeypadConundrum.StockArrangement | 21/21.py:123 | every string with the element string's letters is built as an arrangement |
| KeypadConundrum.ArrangementsArePermutations | 21/21.py:123 | the candidates are exactly the strings with the letters of the element string: permutations(element_string, r=manhattan_dist) |
| KeypadConundrum.ArrangementsArrows | 21/21.py:123 | every candidate is made of arrows only |
| KeypadConundrum.PosAfterAppend | 21/21.py:129-136 | walking u then v ends where walking u + v ends |
| KeypadConundrum.PosAfterCounts | 21/21.py:129-136 | where a walk ends depends only on how many of each arrow it holds |
| KeypadConundrum.LShapePositions | 21/21.py:122-136 | along x * n + y * m the arm moves along the first leg, then the second |
| KeypadConundrum.GapFreePathsMembers | 21/21.py:109-140 | a string is in the filtered set exactly when it is a permutation of the element string that never steps onto the gap |
| KeypadConundrum.ShortestPathShape | 21/21.py:109-140 | every filtered path has the Manhattan length, uses only the two arrows toward the target, avoids the gap and ends on the target button |
| KeypadConundrum.ArrangementLetters | 21/21.py:122-123 | a candidate has h + v letters, each one of the two arrows |
| KeypadConundrum.ArrangementEnd | 21/21.py:114-123 | any permutation of the element string leads from the initial to the target button |
| KeypadConundrum.NumericCornerGap | 21/21.py:76-89 | on the numeric keypad the gap is a corner of the key rectangle |
| KeypadConundrum.DirectionalCornerGap | 21/21.py:91-98 | on the directional keypad the gap is a corner of the key rectangle |
| KeypadConundrum.GapFreeNonEmpty | 21/21.py:109-140 | between two real buttons of a keypad with a corner gap at least one path survives the filter |
| KeypadConundrum.VerticalFirstMember | 21/21.py:109-140 | when the horizontal-first path hits the corner gap, the vertical-first path survives |
| KeypadConundrum.WalkAvoidsGap | 21/21.py:126-136 | should_add is True exactly when no step of the walk lands on the gap |
| KeypadConundrum.GetAllShortestPaths | 21/21.py:109-140 | the result is the set of permutations of the element string that avoid the gap |
| KeypadConundrum.KeyPairsMember | 21/21.py:145-157 | the table's keys are the ordered pairs of distinct buttons other than the gap |
| KeypadConundrum.BuildPathTable | 21/21.py:145-157 | the preprocessed table maps each pair of distinct real buttons to its gap-free shortest paths and has no other key |
| KeypadConundrum.PathTableUnique | 21/21.py:145-157 | there is only one such table per keypad |
| KeypadConundrum.EntryFacts | 21/21.py:145-157 | every entry is non-empty and all its paths have the Manhattan length |
| KeypadConundrum.NumericTableFixtures | 21/21.py:173-176 | the four module-level assertions: A→0 and 0→2 take one move, 2→9 and 9→A take three |
| KeypadConundrum.ClearWalkAvoidsGap | 21/21.py:126-136 | a walk checked step by step against the gap avoids it |
| KeypadConundrum.CheckedLetters | 21/21.py:114-123 | a route with the right arrow counts is a permutation of the element string |
| KeypadConundrum.TableHas | 21/21.py:109-157 | a route with the right arrow counts that avoids the gap is in the table's entry |
| KeypadConundrum.KeyPositions | 21/21.py:179-200 | one keypad position per character of the code |
| KeypadConundrum.PressAfterArrows | 21/21.py:190-195 | a path followed by "A" presses the button the path ends on |
| KeypadConundrum.ExpansionShape | 21/21.py:179-200 | every sequence produced presses exactly the code's buttons in order, holds one "A" per character, has length |code| plus the Manhattan route lengths, and is paired with the code's last button |
| KeypadConundrum.ExpansionFirst | 21/21.py:188-195 | every sequence produced is one table path (or nothing when already on the button), then "A", then a sequence for the rest |
| KeypadConundrum.ExpansionEndsWithPress | 21/21.py:179-200 | every sequence for a non-empty code ends with a press |
| KeypadConundrum.ChoiceExpands | 21/21.py:179-200 | any choice of one table path per step, joined with presses, is among the sequences produced |
| KeypadConundrum.Explore | 21/21.py:182-195 | the recursive explore adds to possible_paths every completion of the current path, or fails with KeyError on a missing table entry |
| KeypadConundrum.ExploreCandidates | 21/21.py:191-193 | the loop over candidate paths adds each candidate's completions |
| KeypadConundrum.CalculateKeypadPaths | 21/21.py:179-207 | the set returned is the full set of (sequence, last button) pairs of the code |
| KeypadConundrum.ExpansionFixtures | 21/21.py:209-220 | the three assertions: <A^A>^^AvvvA is among the sequences for 029A, v<<A>>^A<A>AvA<^AA>A<vAAA>^A among those for it, and the 68-press sequence among those for that |
| KeypadConundrum.LeadingZeros | 21/21.py:19 | a run of zeros parses to 0 |
| KeypadConundrum.SequenceComplexity | 21/21.py:18-19 | the complexity is defined exactly when the code has at least one character before its last and all of them are decimal digits; otherwise int() raises ValueError |
| KeypadConundrum.ComplexityOfCode | 21/21.py:18-19 | a code of leading zeros, a number n and a final key has complexity n × length |
| KeypadConundrum.ComplexityOfDigits | 21/21.py:18-19 | a code of digits and a final key has complexity the digits' value × length |
| KeypadConundrum.ComplexityNeedsDigits | 21/21.py:18-19 | int() raises ValueError when the code without its last character is empty or holds a non-digit |
| KeypadConundrum.ComplexityFixtures | 21/21.py:71 | the five complexities of the example: 68 × 29, 60 × 980, 68 × 179, 64 × 456, 64 × 379 |
| KeypadConundrum.ExpansionCommands | 21/21.py:179-200 | with arrow-only table paths every sequence produced is a command string |
| KeypadConundrum.DirectionalTotal | 21/21.py:206-207 | every command string can be expanded on the directional keypad without a missing entry |
| KeypadConundrum.DirectionalExpansion | 21/21.py:238-239 | each robot-A sequence is a command string ending on A |
| KeypadConundrum.HandSequencesAdd | 21/21.py:235-243 | the hand sequences of one more numeric sequence are added to those already scanned |
| KeypadConundrum.KeepShortest | 21/21.py:240-243 | keeping the strictly shorter candidate keeps the best one the shortest seen |
| KeypadConundrum.ScanRobotB | 21/21.py:239-243 | after the innermost loop the best is a shortest of all sequences seen |
| KeypadConundrum.ScanRobotA | 21/21.py:238-243 | after the middle loop the best is a shortest of every hand sequence for the robot-A sequences scanned |
| KeypadConundrum.ScanNumeric | 21/21.py:235-244 | the outer loop raises AssertionError exactly when a numeric sequence does not end on A; otherwise the best is a shortest of all hand sequences |
| KeypadConundrum.SearchCode | 21/21.py:231-246 | the search for one code finds the shortest outer sequence length or the error the source raises, and leaves both robots on A |
| KeypadConundrum.SearchNext | 21/21.py:231-248 | one more code extends the list of (code, shortest sequence) pairs |
| KeypadConundrum.SearchCodes | 21/21.py:224-248 | the list pairs each code with a shortest sequence for it, or reports the first error |
| KeypadConundrum.SumOfComplexities | 21/21.py:251-253 | the sum of the complexities of the pairs found, or int()'s error |
| KeypadConundrum.CalculateShortestManualPressSequenceLength | 21/21.py:224-253 | the answer is the sum over the codes of the shortest hand sequence length × the code's number, with the source's errors |
| KeypadConundrum.ShortestAtMost | 21/21.py:224-253 | the shortest length is at most the length of any hand sequence built through the three keypads |
| KeypadConundrum.ShortestFor029A | 21/21.py:69 | the shortest hand sequence for 029A has at most 68 presses |
| SecretNumbers.Mix | 22/22.py:22-23 | mixing is exclusive-or, so either value is recovered from the mix by mixing in the other: mixing the same value in twice gives back the secret |
| SecretNumbers.Prune | 22/22.py:26-27 | a pruned value lies below 16777216 |
| SecretNumbers.PruneIsRemainder | 22/22.py:26-27 | keeping the low 24 bits is the remainder modulo 16777216 |
| SecretNumbers.NextSecret | 22/22.py:30-34 | the next secret always lies below 2^24 |
| SecretNumbers.Price | 22/22.py:37-38 | the price is a digit 0-9 |
| SecretNumbers.Fixtures | 22/22.py:41-46 | the six module-level assertions: 123 → 15887950 → 16495136 → 527345, prices 3, 0, 6 |
| SecretNumbers.Evolve | 22/22.py:60-61 | after at least one step the secret lies below 2^24 |
| SecretNumbers.EvolveSteps | 22/22.py:60-61 | the inner loop applies the next-secret step 2000 times |
| SecretNumbers.SumAfterPrefix | 22/22.py:54-67 | adding one more buyer's evolved secret extends the running sum by that secret |
| SecretNumbers.SumOfSecrets | 22/22.py:54-67 | the sum of every buyer's secret after exactly 2000 steps |
| LanParty.Sort3Sorts | 23/23.py:19 | tuple(sorted([a, b, c])) is ordered and holds exactly a, b and c |
| LanParty.FirstIsLeast | 23/23.py:19-62 | the first name of a sorted triple is the least of the three |
| LanParty.OrderedUnique | 23/23.py:11-21 | two sorted triples of the same three names are equal, so the set holds each triangle once |
| LanParty.ConnectExact | 23/23.py:48-52 | the dictionary has a key for exactly the names that occur, and b is a neighbour of a exactly when a-b or b-a is a link |
| LanParty.BuildConnections | 23/23.py:48-52 | the loop builds the connection dictionary of the links |
| LanParty.ConnectWellFormed | 23/23.py:48-52 | without self-links the connections are symmetric and irreflexive |
| LanParty.TrianglesOverStep | 23/23.py:12-21 | one more outer computer adds its triangles |
| LanParty.AddTrianglesVia | 23/23.py:14-21 | the innermost loop adds the sorted triple for each common neighbour of a and b |
| LanParty.AddTrianglesFrom | 23/23.py:13-21 | the middle loop adds the triangles through each neighbour of a |
| LanParty.FindNetworksOfThree | 23/23.py:8-22 | the result is the set of sorted triples found by the three nested loops |
| LanParty.Sort3Permutes | 23/23.py:19 | the sorted triple is one of the six orders of the names |
| LanParty.NetworksOfThreeExact | 23/23.py:8-22 | on symmetric, irreflexive connections a triple is found exactly when it is sorted and its three names are pairwise linked; its names are distinct |
| LanParty.EachTriangleOnce | 23/23.py:8-22 | every triangle is found, and exactly once, as its sorted triple |
| LanParty.CountHistorianNetworks | 23/23.py:56-64 | the count is the number of networks with a name starting with 't' |
| LanParty.HistorianCountBound | 23/23.py:56-64 | the count is at most the number of networks, and equal exactly when every network has such a name |
| LanParty.CandidatesStep | 23/23.py:31-33 | the recursive call keeps R a clique and P, X its common neighbours |
| LanParty.PendingSplit | 23/23.py:30-35 | every maximal clique still to be reported either contains v, and is reported by the recursive call, or does not and is still to be reported after v moves from P to X |
| LanParty.NothingPending | 23/23.py:28-36 | with P empty and X non-empty no maximal clique extends R |
| LanParty.LoopStep | 23/23.py:30-35 | each pass of the loop keeps the cliques reported maximal and keeps every unreported maximal clique within reach |
| LanParty.LoopDone | 23/23.py:30-36 | after the loop the cliques reported are exactly the maximal cliques between R and R ∪ P that avoid X |
| LanParty.BronKerbosch | 23/23.py:26-36 | every clique returned is maximal and between R and R ∪ P, and every maximal clique between them avoiding X is returned |
| LanParty.ExtendToMaximal | 23/23.py:25-39 | every clique lies inside a maximal one |
| LanParty.LongestIndex | 23/23.py:39 | max(key=len) picks the first clique of the greatest size |
| LanParty.FindLargestGraphClique | 23/23.py:25-39 | the clique returned is maximal and no clique of the network is larger |
| LanParty.IndexOfComma | 23/23.py:69 | the position of the first comma |
| LanParty.SplitJoin | 23/23.py:69 | splitting the joined password at its commas gives back the names |
| LanParty.Password | 23/23.py:69 | the password is the clique's names sorted and joined with commas, empty for an empty clique; when no name holds a comma it splits back into the clique's names in increasing order, each once |
| LanParty.DoProblem | 23/23.py:42-72 | the answer is the number of networks of three with a name starting with 't', and the password is the sorted, comma-joined names of a maximal clique no clique of the network is larger than |
| GateNetwork.Bit | 24/24.py:52-56 | a bit is 0 or 1 |
| GateNetwork.BitShift | 24/24.py:52-56 | above bit 0, bit k of 2h + b is bit k − 1 of h |
| GateNetwork.BitwiseAnd | 24/24.py:52 | bit k of x & y is the AND of bit k of x and of y |
| GateNetwork.BitwiseOr | 24/24.py:54 | bit k of x \| y is the OR of bit k of x and of y |
| GateNetwork.BitwiseXor | 24/24.py:56 | bit k of x ^ y is the XOR of bit k of x and of y |
| GateNetwork.OnBits | 24/24.py:51-56 | on 0 and 1 the three operators are their truth tables |
| GateNetwork.Apply | 24/24.py:51-58 | a ready gate fails exactly for an operator other than AND, OR, XOR, with the source's message, and maps bits to a bit |
| GateNetwork.FirstIndex | 24/24.py:49 | the index of the first gate equal to the one removed |
| GateNetwork.RemoveFirst | 24/24.py:49 | list.remove takes out exactly one copy of the gate |
| GateNetwork.SweepAccounts | 24/24.py:43-58 | in one pass of the for loop every gate is either still waiting or has fired, no value is lost, and each fired gate's output is set |
| GateNetwork.SweepKeepsBits | 24/24.py:43-58 | a pass keeps every value a bit |
| GateNetwork.SweepStuck | 24/24.py:43-47 | when no gate is ready a pass changes nothing |
| GateNetwork.SweepProgress | 24/24.py:43-58 | when some gate is ready a pass removes at least one gate |
| GateNetwork.SweepShrinks | 24/24.py:43-58 | a pass never adds gates |
| GateNetwork.SimulateStuck | 24/24.py:42-47 | when gates remain but none is ready, the while loop never ends |
| GateNetwork.SweepAllReady | 24/24.py:43-58 | when every gate is ready, a pass removes some and leaves the rest ready |
| GateNetwork.SimulateUnfold | 24/24.py:42-58 | one turn of the while loop is one pass |
| GateNetwork.SimulateEnds | 24/24.py:42-58 | the loop ends when no gates remain or a pass raises |
| GateNetwork.SimulateHalts | 24/24.py:42-58 | when every gate's inputs are known the loop ends within as many passes as gates |
| GateNetwork.SimulateKeepsBits | 24/24.py:42-60 | with bit inputs every wire value after the loop is a bit |
| GateNetwork.SimulateDefinesOutputs | 24/24.py:42-60 | after the loop every initial wire keeps a value and every gate's output wire has one |
| GateNetwork.Circuit.SimulateOperations | 24/24.py:41-60 | the in-place loop ends as the bounded simulation does, with the list emptied and the dictionary holding the values |
| GateNetwork.Circuit.SweepOnce | 24/24.py:43-58 | one pass over the live list, removing each gate that fires, leaves the list and dictionary as the pass defines or raises its error |
| GateNetwork.ZValues | 24/24.py:78 | the z-wires' values, exactly those of wires starting with 'z' |
| GateNetwork.ParseBinary | 24/24.py:84 | the parse succeeds exactly on a non-empty string of the characters 0 and 1, which is how int(s, 2) behaves on strings joined from str() of bits, the only ones the source parses |
| GateNetwork.LsbValueBound | 24/24.py:80-84 | n bits read least significant first give a value below 2^n |
| GateNetwork.BinaryStringAppend | 24/24.py:82 | appending a wire appends str(value) to the string |
| GateNetwork.BinaryValueAppend | 24/24.py:84 | one more binary digit doubles the value and adds the digit |
| GateNetwork.ReversedBits | 24/24.py:80-84 | the z-wires sorted and reversed give the binary string of the bits, most significant first |
| GateNetwork.DecodeZBits | 24/24.py:78-84 | with bit values the answer is the z bits read with z00 least significant, below 2^(number of z wires); no z wire makes int() raise |
| GateNetwork.Reversed | 24/24.py:80 | the loop builds the reversed list |
| GateNetwork.ReadZ | 24/24.py:78-84 | the decoding of the z wires as the source performs it |
| GateNetwork.JoinValues | 24/24.py:82 | "".join(str(z_values[k])) over the keys |
| GateNetwork.Part1Bits | 24/24.py:63-84 | with bit inputs the answer is the z bits read as a binary number |
| GateNetwork.DoProblemPart1 | 24/24.py:63-84 | the part-one answer as the bounded run defines it |
| StringOrder.NameLeReflexive | 23/23.py:19 | Python's string order is reflexive |
| StringOrder.NameLeTotal | 23/23.py:19 | any two names are ordered one way or the other |
| StringOrder.NameLeAntisymmetric | 23/23.py:19 | names ordered both ways are equal |
| StringOrder.NameLeTransitive | 23/23.py:19 | the string order is transitive |
| StringOrder.Insert | 23/23.py:19 | inserting a name into an ascending list keeps it ascending and adds exactly that name |
| StringOrder.Least | 23/23.py:69 | every non-empty set of names has a least member |
| StringOrder.Sorted | 23/23.py:69 | the listing of a set is strictly ascending and holds each member once and nothing else |
| StringOrder.LeastInFront | 23/23.py:69 | the least member in front of an ascending listing of the rest lists the whole set in order |
| StringOrder.SortNames | 23/23.py:69 | sorted() on a set returns its members in strictly ascending order, each once: the one such listing |
| StringOrder.IncreasingUnique | 23/23.py:69 | two strictly ascending lists with the same names are equal, so sorted() does not depend on iteration order |
| DecimalText.ToDecimal | 11/11.py:10 | str(n) is a non-empty digit string without a leading zero unless it is "0" |
| DecimalText.DecimalRoundTrip | 11/11.py:10-14 | int(str(n)) == n |
| DecimalText.DigitsAppend | 7/day7.py:27 | two digit strings side by side form a digit string |
| DecimalText.FromDecimalAppend | 7/day7.py:27 | the value of joined digit strings is the first shifted by the second's length, plus the second |
| DecimalText.FromDecimalBound | 11/11.py:14 | a digit string of length k has a value below 10^k |
| DecimalText.ThreeDigitValue | 21/21.py:19 | three digits read as 100·a + 10·b + c |
| FiniteSums.SumExt | 19/19.py:146-164 | sums of functions that agree on the range are equal |
| FiniteSums.SumLast | 19/19.py:146-164 | a sum is the sum without its last term, plus that term |
| FiniteSums.SumShift | 19/19.py:146-164 | shifting the range by one and the function back by one keeps the sum |
| FiniteSums.SumMirror | 19/19.py:146-164 | summing f read backwards from c over lo .. hi - 1 is summing f over c - hi + 1 .. c - lo |
| FiniteSums.SumReflect | 19/19.py:146-164 | summing a range backwards gives the same total |
| FiniteSums.DiagonalReflect | 19/19.py:146-164 | an anti-diagonal of the triangle of pairs sums the same walked by either coordinate |
| FiniteSums.GrowByDiagonal | 19/19.py:146-164 | growing a triangle by one line adds exactly the new diagonal |
| FiniteSums.RowsGrow | 19/19.py:146-164 | the triangle for n + 1 by rows is the triangle for n plus the new anti-diagonal |
| FiniteSums.ColumnsGrow | 19/19.py:146-164 | the same by columns |
| FiniteSums.RowsColumns | 19/19.py:146-164 | summing the triangle of (first towel, last towel) pairs by rows or by columns gives the same total |
| IntSets.AnyMember | 16/16.py:259 | picking from a non-empty set yields one of its members |
| IntSets.EmptyWithoutMember | 16/16.py:259 | a set with no member is empty |
| MazeGrids.FindCharInGrid | 16/16.py:12-23 | the position found holds the tile and no earlier cell in row-major order does; AssertionError("robot needs to be in grid") exactly when the tile is absent |
| MazeGrids.OpenMember | 20/20.py:44-50 | an open cell is an in-grid cell that is not a wall |
| MazeGrids.InitDistances | 18/18.py:45-51 | every open cell, and nothing else, starts at the sentinel |
| MazeGrids.UnitEdges | 18/18.py:40-66 | the four neighbours in DIRECTIONS order, each at cost 1 |
| MazeGrids.UnitEdgesAdjacent | 18/18.py:65-66 | every neighbour is one orthogonal step away |
| MazeGrids.UnitCost | 18/18.py:71 | on unit edges a walk costs its number of steps |
| MazeGrids.SimpleDijkstra | 18/18.py:42-78 | the start is at 0, every finite distance is the length of a walk through open cells, none is beaten by a walk that stays under the sentinel, and unreached cells keep the sentinel |
| ShortestPaths.WalkAppend | 18/18.py:65-75 | a walk extended by one edge ends at that edge's target and costs its weight more |
| ShortestPaths.WalkEndsInside | 18/18.py:65-69 | a walk inside the table ends inside it |
| ShortestPaths.ValidWithin | 18/18.py:65-69 | a walk inside a set of states stays inside any larger set |
| ShortestPaths.LeastEntry | 16/16.py:121 | heappop yields an entry of least distance |
| ShortestPaths.PopVisited | 16/16.py:122-123 | skipping an entry whose state is already expanded keeps the search invariant |
| ShortestPaths.PopFresh | 16/16.py:121-125 | popping a least entry of a state not yet expanded settles it at its recorded distance |
| ShortestPaths.PopSettled | 16/16.py:121-125 | the popped distance is the recorded one and lies below every entry still queued |
| ShortestPaths.RelaxEdge | 16/16.py:143-145 | an improving edge sets the neighbour's distance, records its walk and queues it, keeping the invariant |
| ShortestPaths.RelaxOne | 16/16.py:127-145 | one edge of the expanded state: skipped when its target has no entry, otherwise relaxed when strictly better |
| ShortestPaths.RelaxEdges | 16/16.py:127-145 | after all edges of the expanded state, the search invariant holds again |
| ShortestPaths.ExpandingIntro | 16/16.py:127 | the invariant of the edge loop holds before its first edge |
| ShortestPaths.ExpandNext | 16/16.py:120-145 | one turn keeps the invariant and either shrinks the queue or expands a new state |
| ShortestPaths.NoShorterWalk | 18/18.py:55-75 | once every reached state is expanded, no walk beats a recorded distance |
| ShortestPaths.Finish | 18/18.py:55-77 | with the queue empty every finite distance is realised by a walk and is the least over walks under the sentinel |
| ShortestPaths.StartInv | 16/16.py:115-117 | the start at 0 with one queue entry satisfies the invariant |
| ShortestPaths.RunDijkstra | 16/16.py:105-145 | the table keeps its keys plus the start, the start is at 0, every finite distance is realised by a walk and unbeaten, and each state is expanded at most once, exactly when reached |

## Left out

- Reading input files, command-line handling, regular-expression scanning (Go `regexp`, Python `re`) and all printing: every module takes already-parsed integers, offsets, rules, grids and strings.
- The fixture values that need a whole input file (day 12's prices 80, 236, 368, 436 and 1206, day 16's 7036, day 21's 126384): the verifier cannot evaluate searches over full puzzle inputs. The small fixtures written into the source are proved.
- ClawMachine.OptimizedIntCombo: numpy solves the button system in float64 and tests each component against its rounding with an absolute tolerance of 1e-04; the model solves it exactly by Cramer's rule and applies the same tolerance to the exact quotients, so float64 rounding error, which grows with prizes near 10^13, is not modelled. A singular matrix is taken to raise, as LAPACK does on an exactly zero pivot.
- Day 14 `find_christmas_tree` and `print_grid`: an endless interactive loop around `input()`, and display.
- Day 16 `get_all_coordinates_in_shortest_path` and `print_grid_cost`: diagnostic output that no answer depends on.
- Day 19 identity hashing, the self-recursive `__eq__` of the trie node and the `@cache` decorators: the trie is a structural value and memoised recursion is plain recursion, which computes the same numbers.
- Day 24 `do_problem_part_2`: unfinished in the source; it always returns 0.
- `heapq`: the priority queue is an abstract multiset with extract-min, so ties between equal distances may be broken differently; every property proved holds for any tie-break.
- Python's arbitrary iteration order over sets and dictionaries: wherever the source iterates over a set, the model picks any member, so the results proved hold for every order.
- Fuel bounds: day 5's fix-up loop, day 6's guard walk, day 17's interpreter, day 24's gate simulation and day 19's explicit-stack search take a step bound, and running out is a distinct result. The source loops for ever (or, for day 19, gives up after its iteration limit) where the model reports exhausted fuel.
- ReindeerMaze.FindHighestScoringRoute: requires the map to be bordered by walls, as puzzle maps are; on an open border Python's negative indices wrap around, which is not modelled. Its contract states that a score other than -1 is the cost of a real route that never revisits a cell, not that it is the least such cost.
- ReindeerMaze.Explore: requires walls on the border, like FindHighestScoringRoute, and states only that a score other than -1 is the cost so far plus the cost of a real route to E avoiding the path and is not below the best known; that it is the least such cost is not promised, because the pruning against the shared best-known score makes the routes explored depend on the order of the search.
- WarehouseRobot.Pushed: requires a grid bordered by walls, as puzzle warehouses are. On an open border Python's negative indices wrap around to the far side and an index past the end raises IndexError; that indexing is not modelled, and neither is it for the other members that require Walled, listed next.
- WarehouseRobot.RunLength: requires Walled, as Pushed does.
- WarehouseRobot.Step: requires Walled, as Pushed does.
- WarehouseRobot.Simulate: requires Walled, as Pushed does.
- WarehouseRobot.Warehouse.DoMove: requires Walled, as Pushed does; the two asserts of do_move hold under can_move and are not modelled as error results.
- WarehouseRobot.Warehouse.MoveOnce: requires Walled, as Pushed does.
- WarehouseRobot.Warehouse.DoMovements: requires Walled, as Pushed does. The start is the robot's tile; with no '@' in the grid the source fails on the missing position, which is not modelled.
- WordSearch.SolveProblem2: requires every row to be at least as long as the number of rows (the empty grid and longer rows are modelled; only the leading square is read). On a shorter row the source raises IndexError or not depending on where the 'A's lie; that case is not modelled.
- WordSearch.FindDiagonalInstances: requires a square grid, which `solve_problem_1` asserts before calling it.
- TowelDesigns.DesignIsPossible: takes a fuel bound that design_is_possible does not have; ExpandedWithinWeight shows the unlimited search stops, and with fuel at least the number of towel paths from index 0 the result is never None.
- GuardWalk.Lab.WalkGuard: requires a non-empty map whose rows all have the first row's length. walk_guard takes len(grid[0]) as every row's width, so on a ragged map a longer row's extra cells are never entered and a shorter row raises IndexError once the guard steps past its end; ragged maps are not modelled.
- GuardWalk.Lab.CountObstructionLoops: requires a rectangular map, as WalkGuard does, and a map holding only '.' and '#' once the guard's '^' is cleared. The source also runs on other characters (a second '^' in a row, any other letter), treats them as open and overwrites a tried cell with '.'; such maps are not modelled.
- GuardWalk.Lab.ColumnTrials: requires a rectangular map of '.' and '#' only, as CountObstructionLoops does.
- Antinodes.GroupAntennas: requires a non-empty map whose rows all have the first row's length. The source reads each row only up to len(grid[0]), so a longer row's extra cells are ignored and a shorter row raises IndexError; ragged maps are not modelled.
- Antinodes.CountAntinodes: requires a rectangular map, as GroupAntennas does; the map size is len(grid[0]) × len(grid) in both.
- TrailSearch.Score: requires a non-empty rectangular grid of heights. The search bounds its right and down steps by len(grid[0]) and len(grid), so on a ragged grid it can raise IndexError on a shorter row or leave part of a longer row unexplored; ragged grids are not modelled.
- TrailSearch.Rating: requires a non-empty rectangular grid, as Score does.
- TrailSearch.TrailRater.Explore: the source records tuple(path) of one shared path list that it never pops, so every tuple after the first also holds cells of earlier dead-end branches and is not itself a hike; only the number of tuples equals the number of hikes. The model keeps that path and those prefixes, and measures their number against the hike set Trails.
- TrailSearch.TrailheadSums: requires a non-empty rectangular grid, as Score does; the trailhead scan itself walks each row to its own length.
- GardenRegions.GetRegionCoordinatesForGrid: requires every row to have the first row's length. The scan walks each row to its own length while the flood fill bounds by len(grid) and len(grid[0]), so on a ragged grid it can raise IndexError; ragged grids are not modelled.
- GardenRegions.FencePrice: requires a rectangular grid, as GetRegionCoordinatesForGrid does.
- GardenRegions.GetCostForGrid: requires a rectangular grid, as GetRegionCoordinatesForGrid does.
- PrintQueue.IndexOf: pages are modelled as integers, while the source keeps them as strings and matches rules by string equality, so "07" and "7" are two pages there and one here; int() is applied only to the middle page, where a non-numeric page would raise ValueError, which is not modelled.
- PrintQueue.FixInPlace: when its fuel runs out it states nothing about the array's contents, only that no valid order was reached.
- KeypadConundrum.ShortestFor029A: proves only that the shortest hand sequence for 029A has at most 68 presses; the matching lower bound needs the full search of the innermost keypad level.
- KeypadConundrum.SequenceComplexity: `int()` also accepts surrounding whitespace, underscores between digits and a leading sign; the model accepts plain decimal digits only and reports ValueError otherwise.
- TrailSearch.ParseLine: states the shape of a successful parse only; that a line with a character other than a digit or '.' yields None follows from CellValue.
- SecretNumbers: secret numbers are 64-bit bit-vectors, so starting secrets are limited to 0 .. 2^64 − 1; Python also accepts larger and negative integers (where `^` and `%` work on the two's-complement value), and those inputs are not modelled. Within that range the bit-vector steps and Python's agree, as the module comment explains.
- GateNetwork.ParseBinary: Python's int(s, 2) also accepts surrounding whitespace, a sign, a 0b prefix and underscores between digits; the model rejects any character other than 0 and 1. The strings the source parses are joined from str() of bits and never contain those forms.
- GateNetwork: wire values are natural numbers; a negative initial value would make `str()` produce a minus sign, which is not modelled.
- LanParty.BronKerbosch: requires a network without self-links; on a link "a-a" the source recurses without end.
- GardenRegions.GetRegionElements: uses the corrected bounds test (see Findings), so on a non-square grid it differs from the source as written.
- RegisterMachine.Step: registers and program numbers are natural numbers. `int()` also reads negative values, on which Python's `//` and `^` act on the two's-complement value and `2 **` a negative combo operand gives a float; those inputs are not modelled.
- RegisterMachine.Computer.RunProgram: likewise for negative registers and program numbers, as for Step.
- ListDistance.CalculateDistance: Go's `int` is 64 bits and each difference passes through `float64` for `math.Abs`; the model uses unbounded integers and the exact absolute value, which agree with the source only while the differences stay below 2^53 in magnitude and the total does not overflow.
- ListDistance.CalculateSimilarityScore: the products and the total are unbounded integers, where Go's 64-bit `int` wraps on overflow.
- ReportSafety.IsPairSafe: the difference of two levels passes through `float64` and 64-bit `int` in the source; the model takes the exact absolute difference, which agrees below 2^53.
- BridgeRepair.GetSum: the numbers of an equation are natural numbers. With a negative number `int(str(lhs) + str(next))` can raise ValueError (for "5" and "-3" it reads "5-3"); that case is not modelled.
- Concurrency: there is none in the source.

## Findings

| source | as written | input that shows it | evidently intended | confidence | as-written member | corrected member |
|---|---|---|---|---|---|---|
| 3/day3.go:93-101 | `indexInDisabledRange` includes the closing offset `r[1]`, which is where the enabling `do()` ends | commands don't() at 0-7 and do() at 7-11 in an input of length 19: a mul starting at offset 11 is skipped although do() has just enabled it | a range covers offsets up to but excluding its closing end | not executed | MulScanner.EndOfDoCountsAsDisabled | MulScanner.HalfOpenMatchesLastCommand |
| 12/12.py:56-61 | the bounds test compares x with `len(grid)` and y with `len(grid[0])` | on the 2 × 3 grid ["AAA", "AAA"] the plot (2, 0) is refused; on the 3 × 2 grid ["AA", "AA", "AA"] the plot (2, 0) is admitted and `grid[0][2]` raises IndexError | x is compared with the row length and y with the number of rows | not executed | GardenRegions.SourceGuardOnNonSquare | GardenRegions.InGridIsCell |
