/** Stones that change on every blink: 0 becomes 1, a stone with an even number of decimal
    digits splits into its two halves, and any other stone is multiplied by 2024. */
module StoneSplitting {

  import opened DecimalText

  const Multiplier := 2024

  /** The halves a stone with an even number of digits splits into. */
  function Split(n: nat): (r: (nat, nat))
    requires |ToDecimal(n)| % 2 == 0
  {
    var s := ToDecimal(n);
    var h := |s| / 2;
    (FromDecimal(s[..h]), FromDecimal(s[h..]))
  }

  /** Splitting loses nothing: the left half followed by the right half, written with
      leading zeros up to half the width, is the original stone. */
  lemma SplitRecombines(n: nat)
    requires |ToDecimal(n)| % 2 == 0
    ensures var (left, right) := Split(n);
      left * Pow10(|ToDecimal(n)| / 2) + right == n && right < Pow10(|ToDecimal(n)| / 2)
  {
    var s := ToDecimal(n);
    var h := |s| / 2;
    assert s == s[..h] + s[h..];
    FromDecimalAppend(s[..h], s[h..]);
    DecimalRoundTrip(n);
    FromDecimalBound(s[h..]);
  }

  /** One stone after one blink. */
  function Blink(n: nat): (r: seq<nat>)
    ensures 1 <= |r| <= 2
  {
    if n == 0 then [1]
    else if |ToDecimal(n)| % 2 == 0 then [Split(n).0, Split(n).1]
    else [n * Multiplier]
  }

  /** A whole row after one blink: each stone is replaced in place by what it becomes. */
  function BlinkAll(nums: seq<nat>): (r: seq<nat>)
    ensures |nums| <= |r| <= 2 * |nums|
  {
    if nums == [] then [] else BlinkAll(nums[..|nums| - 1]) + Blink(nums[|nums| - 1])
  }

  function Evolve(nums: seq<nat>, timesteps: nat): seq<nat>
    decreases timesteps
  {
    if timesteps == 0 then nums else Evolve(BlinkAll(nums), timesteps - 1)
  }

  /** Blinking keeps the order of the stones: each part of a row evolves on its own. */
  lemma {:induction false} BlinkAllAppend(a: seq<nat>, b: seq<nat>)
    ensures BlinkAll(a + b) == BlinkAll(a) + BlinkAll(b)
    decreases |b|
  {
    if b == [] {
      assert a + b == a;
    } else {
      var front, last := b[..|b| - 1], b[|b| - 1];
      assert (a + b)[..|a + b| - 1] == a + front && (a + b)[|a + b| - 1] == last;
      BlinkAllAppend(a, front);
      var x, y, z := BlinkAll(a), BlinkAll(front), Blink(last);
      assert BlinkAll(a + b) == (x + y) + z;
      assert (x + y) + z == x + (y + z);
    }
  }

  lemma {:induction false} EvolveAppend(a: seq<nat>, b: seq<nat>, timesteps: nat)
    ensures Evolve(a + b, timesteps) == Evolve(a, timesteps) + Evolve(b, timesteps)
    decreases timesteps
  {
    if timesteps > 0 {
      var a', b' := BlinkAll(a), BlinkAll(b);
      BlinkAllAppend(a, b);
      EvolveAppend(a', b', timesteps - 1);
      assert Evolve(a + b, timesteps) == Evolve(a' + b', timesteps - 1);
    }
  }

  /** The row never shrinks. */
  lemma {:induction false} EvolveNeverShrinks(nums: seq<nat>, timesteps: nat)
    ensures |Evolve(nums, timesteps)| >= |nums|
    decreases timesteps
  {
    if timesteps > 0 {
      var next := BlinkAll(nums);
      assert |next| >= |nums|;
      EvolveNeverShrinks(next, timesteps - 1);
    }
  }

  /** One pass of the outer loop of calculate_num_stones_after_timestep: the new row is
      built stone by stone. */
  method BlinkRow(nums: seq<nat>) returns (newNums: seq<nat>)
    ensures newNums == BlinkAll(nums)
  {
    newNums := [];
    var k := 0;
    while k < |nums|
      invariant 0 <= k <= |nums|
      invariant newNums == BlinkAll(nums[..k])
    {
      assert nums[..k + 1][..k] == nums[..k];
      var num := nums[k];
      var stringRep := ToDecimal(num);
      if num == 0 {
        newNums := newNums + [1];
      } else if |stringRep| % 2 == 0 {
        newNums := newNums + [FromDecimal(stringRep[..|stringRep| / 2]), FromDecimal(stringRep[|stringRep| / 2..])];
      } else {
        newNums := newNums + [num * Multiplier];
      }
      k := k + 1;
    }
    assert nums[..k] == nums;
  }

  /** calculate_num_stones_after_timestep: blinks a copy of the row the given number of
      times. */
  method StonesAfterTimestep(input: seq<nat>, timesteps: nat) returns (nums: seq<nat>)
    ensures nums == Evolve(input, timesteps)
  {
    nums := input;
    var timestep := 0;
    while timestep < timesteps
      invariant 0 <= timestep <= timesteps
      invariant Evolve(input, timesteps) == Evolve(nums, timesteps - timestep)
    {
      nums := BlinkRow(nums);
      timestep := timestep + 1;
    }
  }

  /** calculate_num_stones_recursive: the number of stones one stone becomes. */
  function CountStones(num: nat, timestep: nat): nat
    decreases timestep
  {
    if timestep == 0 then 1
    else if num == 0 then CountStones(1, timestep - 1)
    else if |ToDecimal(num)| % 2 == 0 then
      CountStones(Split(num).0, timestep - 1) + CountStones(Split(num).1, timestep - 1)
    else CountStones(num * Multiplier, timestep - 1)
  }

  function SumCounts(input: seq<nat>, timestep: nat): nat
  {
    if input == [] then 0 else SumCounts(input[..|input| - 1], timestep) + CountStones(input[|input| - 1], timestep)
  }

  /** One more timestep of the recursive count sums the counts of what the stone becomes. */
  lemma CountStonesStep(num: nat, timestep: nat)
    requires timestep > 0
    ensures CountStones(num, timestep) == SumCounts(Blink(num), timestep - 1)
  {
    var b, t := Blink(num), timestep - 1;
    if num != 0 && |ToDecimal(num)| % 2 == 0 {
      var (left, right) := Split(num);
      assert b == [left, right];
      assert b[..1] == [left] && b[..1][..0] == [];
      assert SumCounts(b[..1], t) == CountStones(left, t);
      assert SumCounts(b, t) == SumCounts(b[..1], t) + CountStones(right, t);
      assert CountStones(num, timestep) == CountStones(left, t) + CountStones(right, t);
    } else {
      assert b[..0] == [];
    }
  }

  lemma {:induction false} EvolveEmpty(timestep: nat)
    ensures Evolve([], timestep) == []
    decreases timestep
  {
    if timestep > 0 {
      EvolveEmpty(timestep - 1);
    }
  }

  /** The recursive count is the length of the iterated row of that one stone. */
  lemma {:induction false} CountStonesIsLength(num: nat, timestep: nat)
    ensures CountStones(num, timestep) == |Evolve([num], timestep)|
    decreases timestep, 0
  {
    if timestep > 0 {
      var b := Blink(num);
      assert BlinkAll([num]) == b by {
        assert [num][..0] == [];
      }
      CountStonesStep(num, timestep);
      SumCountsIsLength(b, timestep - 1);
      calc {
        |Evolve([num], timestep)|;
        |Evolve(BlinkAll([num]), timestep - 1)|;
        |Evolve(b, timestep - 1)|;
        SumCounts(b, timestep - 1);
        CountStones(num, timestep);
      }
    }
  }

  /** The recursive counts summed over the input row equal the length of the iterated row. */
  lemma {:induction false} SumCountsIsLength(input: seq<nat>, timestep: nat)
    ensures SumCounts(input, timestep) == |Evolve(input, timestep)|
    decreases timestep, 1, |input|
  {
    if input != [] {
      var init, last := input[..|input| - 1], input[|input| - 1];
      assert input == init + [last];
      SumCountsIsLength(init, timestep);
      CountStonesIsLength(last, timestep);
      EvolveAppend(init, [last], timestep);
    } else {
      EvolveEmpty(timestep);
    }
  }
}
