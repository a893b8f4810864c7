/** Corrupted-memory multiplications (3/day3.go). The do() and don't() commands, given by the
    offsets where they start and end, are sorted by start and scanned into disabled ranges;
    part one sums every product, part two skips products that start inside a disabled
    range. Finding the commands and the mul(a,b) matches in the text is left to the caller:
    the model takes their offsets and operands. */
module MulScanner {

  /** One do() (enable) or don't() (disable) command: the offsets of its first character and
      of the character after it. */
  datatype Command = Command(begin: int, end: int, enable: bool)

  /** A disabled range [lo, hi]; the source tests it with inclusive bounds. */
  datatype Range = Range(lo: int, hi: int)

  /** A mul(a,b) match: operands and start offset. */
  datatype Multiplication = Multiplication(a: int, b: int, index: int)

  predicate SortedByBegin(s: seq<Command>)
  {
    forall i, j :: 0 <= i < j < |s| ==> s[i].begin <= s[j].begin
  }

  /** The commands before sorting: every do() match, then every don't() match. */
  function Commands(doIndices: seq<(int, int)>, dontIndices: seq<(int, int)>): (cmds: seq<Command>)
    ensures |cmds| == |doIndices| + |dontIndices|
    ensures forall k :: 0 <= k < |doIndices| ==>
      cmds[k] == Command(doIndices[k].0, doIndices[k].1, true)
    ensures forall k :: 0 <= k < |dontIndices| ==>
      cmds[|doIndices| + k] == Command(dontIndices[k].0, dontIndices[k].1, false)
  {
    seq(|doIndices|, k requires 0 <= k < |doIndices| => Command(doIndices[k].0, doIndices[k].1, true))
    + seq(|dontIndices|, k requires 0 <= k < |dontIndices| => Command(dontIndices[k].0, dontIndices[k].1, false))
  }

  /** The scanner's state after some commands: whether a disabled range is open, where it
      began (-1 when none is open), and the ranges closed so far. */
  datatype ScanState = ScanState(isDisabled: bool, rangeBegin: int, ranges: seq<Range>)

  /** One command of the scan: a don't() while enabled opens a range at its end; a do() while
      disabled closes the open range at its end; any other command changes nothing. */
  function Step(st: ScanState, cmd: Command): ScanState
  {
    if !st.isDisabled && !cmd.enable then ScanState(true, cmd.end, st.ranges)
    else if st.isDisabled && cmd.enable then ScanState(false, -1, st.ranges + [Range(st.rangeBegin, cmd.end)])
    else st
  }

  function Scan(cmds: seq<Command>): ScanState
  {
    if cmds == [] then ScanState(false, -1, [])
    else Step(Scan(cmds[..|cmds| - 1]), cmds[|cmds| - 1])
  }

  /** The ranges of a scan of sorted commands; a range still open at the end runs to the end
      of the input. */
  function DisabledRanges(cmds: seq<Command>, inputLength: int): seq<Range>
  {
    var st := Scan(cmds);
    if st.isDisabled && st.rangeBegin != -1 then st.ranges + [Range(st.rangeBegin, inputLength)]
    else st.ranges
  }

  /** Exchanging two neighbouring commands keeps the array's multiset. */
  method SwapAdjacent(a: array<Command>, j: int)
    requires 0 < j < a.Length
    modifies a
    ensures a[j - 1] == old(a[j]) && a[j] == old(a[j - 1])
    ensures forall k :: 0 <= k < a.Length && k != j && k != j - 1 ==> a[k] == old(a[k])
    ensures multiset(a[..]) == old(multiset(a[..]))
  {
    a[j - 1], a[j] := a[j], a[j - 1];
  }

  /** sort.Sort(CommandsByRange(...)): reorders the commands in place by start offset. */
  method SortByBegin(a: array<Command>)
    modifies a
    ensures SortedByBegin(a[..])
    ensures multiset(a[..]) == old(multiset(a[..]))
  {
    if a.Length == 0 {
      return;
    }
    var i := 1;
    while i < a.Length
      invariant 1 <= i <= a.Length
      invariant forall p, q :: 0 <= p < q < i ==> a[p].begin <= a[q].begin
      invariant multiset(a[..]) == old(multiset(a[..]))
    {
      var j := i;
      while j > 0 && a[j - 1].begin > a[j].begin
        invariant 0 <= j <= i
        invariant forall p, q :: 0 <= p < q <= i && q != j ==> a[p].begin <= a[q].begin
        invariant 0 < j < i ==> a[j - 1].begin <= a[j + 1].begin
        invariant multiset(a[..]) == old(multiset(a[..]))
      {
        SwapAdjacent(a, j);
        j := j - 1;
      }
      i := i + 1;
    }
  }

  /** calculateDisabledRanges: collects the commands, sorts them by start and scans them. The
      sorted commands are returned alongside the ranges. */
  method CalculateDisabledRanges(doIndices: seq<(int, int)>, dontIndices: seq<(int, int)>, inputLength: int)
    returns (commands: seq<Command>, invalidRanges: seq<Range>)
    ensures SortedByBegin(commands)
    ensures multiset(commands) == multiset(Commands(doIndices, dontIndices))
    ensures invalidRanges == DisabledRanges(commands, inputLength)
  {
    var a := new Command[|doIndices| + |dontIndices|](k => Command(0, 0, true));
    var k := 0;
    while k < |doIndices|
      invariant 0 <= k <= |doIndices|
      invariant forall m :: 0 <= m < k ==> a[m] == Commands(doIndices, dontIndices)[m]
    {
      a[k] := Command(doIndices[k].0, doIndices[k].1, true);
      k := k + 1;
    }
    k := 0;
    while k < |dontIndices|
      invariant 0 <= k <= |dontIndices|
      invariant forall m :: 0 <= m < |doIndices| + k ==> a[m] == Commands(doIndices, dontIndices)[m]
    {
      a[|doIndices| + k] := Command(dontIndices[k].0, dontIndices[k].1, false);
      k := k + 1;
    }
    assert a[..] == Commands(doIndices, dontIndices);
    SortByBegin(a);
    commands := a[..];

    invalidRanges := [];
    var isDisabled := false;
    var currentDisabledRangeBegin := -1;
    var i := 0;
    while i < |commands|
      invariant 0 <= i <= |commands|
      invariant Scan(commands[..i]) == ScanState(isDisabled, currentDisabledRangeBegin, invalidRanges)
    {
      assert commands[..i + 1][..i] == commands[..i];
      var cmd := commands[i];
      if !isDisabled && !cmd.enable {
        isDisabled := true;
        currentDisabledRangeBegin := cmd.end;
      } else if isDisabled && cmd.enable {
        isDisabled := false;
        invalidRanges := invalidRanges + [Range(currentDisabledRangeBegin, cmd.end)];
        currentDisabledRangeBegin := -1;
      }
      i := i + 1;
    }
    assert commands[..i] == commands;
    if isDisabled && currentDisabledRangeBegin != -1 {
      invalidRanges := invalidRanges + [Range(currentDisabledRangeBegin, inputLength)];
    }
  }

  /** Command offsets as the matcher produces them: each command is non-empty, within the
      input, and ends no later than the next one starts. */
  predicate WellFormed(cmds: seq<Command>, inputLength: int)
  {
    && (forall k :: 0 <= k < |cmds| ==> 0 <= cmds[k].begin < cmds[k].end <= inputLength)
    && (forall k :: 0 <= k < |cmds| - 1 ==> cmds[k].end <= cmds[k + 1].begin)
  }

  predicate Ascending(ranges: seq<Range>)
  {
    && (forall k :: 0 <= k < |ranges| ==> ranges[k].lo <= ranges[k].hi)
    && (forall k :: 0 <= k < |ranges| - 1 ==> ranges[k].hi < ranges[k + 1].lo)
  }

  /** While scanning well-formed commands, the closed ranges are ascending and end no later
      than the last command; an open range starts no later than the last command's end. */
  lemma {:induction false} ScanAscending(cmds: seq<Command>, inputLength: int)
    requires WellFormed(cmds, inputLength) && cmds != []
    ensures Ascending(Scan(cmds).ranges)
    ensures forall k :: 0 <= k < |Scan(cmds).ranges| ==> Scan(cmds).ranges[k].hi <= cmds[|cmds| - 1].end
    ensures Scan(cmds).isDisabled ==>
      0 <= Scan(cmds).rangeBegin <= cmds[|cmds| - 1].end
      && (Scan(cmds).ranges != [] ==> Scan(cmds).ranges[|Scan(cmds).ranges| - 1].hi < Scan(cmds).rangeBegin)
    ensures !Scan(cmds).isDisabled ==> Scan(cmds).rangeBegin == -1
  {
    var p := cmds[..|cmds| - 1];
    var c := cmds[|cmds| - 1];
    if p == [] {
      assert Scan(p) == ScanState(false, -1, []);
    } else {
      assert WellFormed(p, inputLength);
      ScanAscending(p, inputLength);
      assert p[|p| - 1].end <= c.begin < c.end;
    }
  }

  /** The emitted ranges are ascending and non-overlapping (commands as the matcher produces
      them, sorted by start). */
  lemma RangesAscending(cmds: seq<Command>, inputLength: int)
    requires WellFormed(cmds, inputLength)
    ensures Ascending(DisabledRanges(cmds, inputLength))
  {
    if cmds != [] {
      ScanAscending(cmds, inputLength);
    }
  }

  /** indexInDisabledRange: whether i lies in some range, bounds included. */
  method IndexInDisabledRange(disabledRanges: seq<Range>, i: int) returns (found: bool)
    ensures found <==> exists k :: 0 <= k < |disabledRanges| && disabledRanges[k].lo <= i <= disabledRanges[k].hi
  {
    var k := 0;
    while k < |disabledRanges|
      invariant 0 <= k <= |disabledRanges|
      invariant forall m :: 0 <= m < k ==> !(disabledRanges[m].lo <= i <= disabledRanges[m].hi)
    {
      if i >= disabledRanges[k].lo && i <= disabledRanges[k].hi {
        return true;
      }
      k := k + 1;
    }
    return false;
  }

  predicate InDisabledRange(ranges: seq<Range>, i: int)
  {
    exists k :: 0 <= k < |ranges| && ranges[k].lo <= i <= ranges[k].hi
  }

  /** Part one: the sum of every product. */
  function SumAll(mults: seq<Multiplication>): int
  {
    if mults == [] then 0
    else SumAll(mults[..|mults| - 1]) + mults[|mults| - 1].a * mults[|mults| - 1].b
  }

  /** Part two: the sum of the products whose start lies in no disabled range. */
  function SumEnabled(mults: seq<Multiplication>, ranges: seq<Range>): int
  {
    if mults == [] then 0
    else
      var m := mults[|mults| - 1];
      SumEnabled(mults[..|mults| - 1], ranges) + (if InDisabledRange(ranges, m.index) then 0 else m.a * m.b)
  }

  /** The products skipped by part two. */
  function SumDisabled(mults: seq<Multiplication>, ranges: seq<Range>): int
  {
    if mults == [] then 0
    else
      var m := mults[|mults| - 1];
      SumDisabled(mults[..|mults| - 1], ranges) + (if InDisabledRange(ranges, m.index) then m.a * m.b else 0)
  }

  /** The part-two sum is the part-one sum minus the skipped products; since every operand is
      a non-negative number of one to three digits, it never exceeds part one. */
  lemma {:induction false} PartTwoIsPartOneMinusDisabled(mults: seq<Multiplication>, ranges: seq<Range>)
    ensures SumEnabled(mults, ranges) == SumAll(mults) - SumDisabled(mults, ranges)
    ensures (forall k :: 0 <= k < |mults| ==> mults[k].a >= 0 && mults[k].b >= 0) ==>
      SumDisabled(mults, ranges) >= 0 && SumEnabled(mults, ranges) <= SumAll(mults)
  {
    if mults != [] {
      var m := mults[|mults| - 1];
      PartTwoIsPartOneMinusDisabled(mults[..|mults| - 1], ranges);
      if m.a >= 0 && m.b >= 0 {
        assert m.a * m.b >= 0;
      }
    }
  }

  /** The two sums of main. */
  method ProductSums(mults: seq<Multiplication>, disabledRanges: seq<Range>) returns (partOne: int, partTwo: int)
    ensures partOne == SumAll(mults)
    ensures partTwo == SumEnabled(mults, disabledRanges)
  {
    partOne := 0;
    var k := 0;
    while k < |mults|
      invariant 0 <= k <= |mults|
      invariant partOne == SumAll(mults[..k])
    {
      assert mults[..k + 1][..k] == mults[..k];
      partOne := partOne + mults[k].a * mults[k].b;
      k := k + 1;
    }
    assert mults[..k] == mults;
    partTwo := 0;
    k := 0;
    while k < |mults|
      invariant 0 <= k <= |mults|
      invariant partTwo == SumEnabled(mults[..k], disabledRanges)
    {
      assert mults[..k + 1][..k] == mults[..k];
      var skip := IndexInDisabledRange(disabledRanges, mults[k].index);
      if !skip {
        partTwo := partTwo + mults[k].a * mults[k].b;
      }
      k := k + 1;
    }
    assert mults[..k] == mults;
  }

  // ---- The closing bound of a range ----

  /** Whether multiplications are enabled at offset i: the last command that has ended by i
      decides, and before any command they are enabled. */
  function EnabledAt(cmds: seq<Command>, i: int): bool
  {
    if cmds == [] then true
    else if cmds[|cmds| - 1].end <= i then cmds[|cmds| - 1].enable
    else EnabledAt(cmds[..|cmds| - 1], i)
  }

  /** i lies in some range [lo, hi), the closing bound excluded. */
  predicate InHalfOpenRange(ranges: seq<Range>, i: int)
  {
    exists k :: 0 <= k < |ranges| && ranges[k].lo <= i < ranges[k].hi
  }

  /** An offset lies in one more range exactly when it lies in an earlier one or in the new one. */
  lemma InHalfOpenAppend(ranges: seq<Range>, r: Range, i: int)
    ensures InHalfOpenRange(ranges + [r], i) <==> InHalfOpenRange(ranges, i) || r.lo <= i < r.hi
  {
    var all := ranges + [r];
    if InHalfOpenRange(all, i) {
      var k :| 0 <= k < |all| && all[k].lo <= i < all[k].hi;
      if k < |ranges| {
        assert ranges[k] == all[k];
      }
    }
    if InHalfOpenRange(ranges, i) {
      var k :| 0 <= k < |ranges| && ranges[k].lo <= i < ranges[k].hi;
      assert all[k] == ranges[k];
    }
    if r.lo <= i < r.hi {
      assert all[|ranges|] == r;
    }
  }

  /** A mul(...) that starts right where a do() ends is skipped by the inclusive test,
      although that do() has just enabled it. */
  lemma EndOfDoCountsAsDisabled()
    ensures var cmds := [Command(0, 7, false), Command(7, 11, true)];
      && WellFormed(cmds, 19)
      && DisabledRanges(cmds, 19) == [Range(7, 11)]
      && InDisabledRange(DisabledRanges(cmds, 19), 11)
      && EnabledAt(cmds, 11)
  {
    var cmds := [Command(0, 7, false), Command(7, 11, true)];
    assert cmds[..1] == [Command(0, 7, false)];
    assert [Command(0, 7, false)][..0] == [];
    assert DisabledRanges(cmds, 19)[0].lo <= 11 <= DisabledRanges(cmds, 19)[0].hi;
  }

  /** Offset i is covered by a closed range or by the range still open. */
  predicate Covered(st: ScanState, i: int)
  {
    InHalfOpenRange(st.ranges, i) || (st.isDisabled && st.rangeBegin <= i)
  }

  /** With the closing bound excluded, the scan covers exactly the offsets where the last
      finished command was a don't(). */
  lemma {:induction false} ScanCoversDisabled(cmds: seq<Command>, inputLength: int, i: int)
    requires WellFormed(cmds, inputLength)
    ensures Covered(Scan(cmds), i) <==> !EnabledAt(cmds, i)
  {
    if cmds != [] {
      var p := cmds[..|cmds| - 1];
      var c := cmds[|cmds| - 1];
      assert WellFormed(p, inputLength);
      ScanCoversDisabled(p, inputLength, i);
      var st := Scan(p);
      if p != [] {
        ScanAscending(p, inputLength);
        assert p[|p| - 1].end <= c.begin;
      }
      assert forall k :: 0 <= k < |st.ranges| ==> st.ranges[k].hi <= c.begin;
      assert st.isDisabled ==> st.rangeBegin <= c.begin;
      assert !st.isDisabled ==> st.rangeBegin == -1;
      var st' := Step(st, c);
      assert Scan(cmds) == st';
      if !st.isDisabled && !c.enable {
        assert st'.ranges == st.ranges;
      } else if st.isDisabled && c.enable {
        var r := Range(st.rangeBegin, c.end);
        assert st'.ranges == st.ranges + [r];
        InHalfOpenAppend(st.ranges, r, i);
      }
    }
  }

  /** With the closing bound excluded, the final ranges cover an offset inside the input
      exactly when the last command finished by then was a don't(). */
  lemma HalfOpenMatchesLastCommand(cmds: seq<Command>, inputLength: int, i: int)
    requires WellFormed(cmds, inputLength) && 0 <= i < inputLength
    ensures InHalfOpenRange(DisabledRanges(cmds, inputLength), i) <==> !EnabledAt(cmds, i)
  {
    ScanCoversDisabled(cmds, inputLength, i);
    var st := Scan(cmds);
    if cmds != [] {
      ScanAscending(cmds, inputLength);
    }
    if st.isDisabled && st.rangeBegin != -1 {
      var rs := st.ranges + [Range(st.rangeBegin, inputLength)];
      if InHalfOpenRange(rs, i) {
        var k :| 0 <= k < |rs| && rs[k].lo <= i < rs[k].hi;
        if k < |st.ranges| {
          assert st.ranges[k] == rs[k];
        }
      }
      if InHalfOpenRange(st.ranges, i) {
        var k :| 0 <= k < |st.ranges| && st.ranges[k].lo <= i < st.ranges[k].hi;
        assert rs[k] == st.ranges[k];
      }
      if st.rangeBegin <= i {
        assert rs[|st.ranges|] == Range(st.rangeBegin, inputLength);
      }
    }
  }

  /** Part two with the closing bound excluded. */
  function SumEnabledHalfOpen(mults: seq<Multiplication>, ranges: seq<Range>): int
  {
    if mults == [] then 0
    else
      var m := mults[|mults| - 1];
      SumEnabledHalfOpen(mults[..|mults| - 1], ranges) + (if InHalfOpenRange(ranges, m.index) then 0 else m.a * m.b)
  }

  /** Sum of the products that the last finished command enables. */
  function SumEnabledByCommands(mults: seq<Multiplication>, cmds: seq<Command>): int
  {
    if mults == [] then 0
    else
      var m := mults[|mults| - 1];
      SumEnabledByCommands(mults[..|mults| - 1], cmds) + (if EnabledAt(cmds, m.index) then m.a * m.b else 0)
  }

  /** The corrected part two sums exactly the products enabled by the last command before
      them, for matches inside the input. */
  lemma {:induction false} HalfOpenSumIsIntended(mults: seq<Multiplication>, cmds: seq<Command>, inputLength: int)
    requires WellFormed(cmds, inputLength)
    requires forall k :: 0 <= k < |mults| ==> 0 <= mults[k].index < inputLength
    ensures SumEnabledHalfOpen(mults, DisabledRanges(cmds, inputLength)) == SumEnabledByCommands(mults, cmds)
  {
    if mults != [] {
      HalfOpenSumIsIntended(mults[..|mults| - 1], cmds, inputLength);
      HalfOpenMatchesLastCommand(cmds, inputLength, mults[|mults| - 1].index);
    }
  }
}
