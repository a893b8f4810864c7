/** Bridge calibration (7/day7.py): an equation is solvable when inserting *, + or digit
    concatenation between its numbers, evaluated left to right, can produce its test value;
    the solvable test values are summed. */
module BridgeRepair {
  import opened DecimalText

  datatype Result<T> = Ok(value: T) | Err(message: string)

  /** The number of decimal digits of n. */
  function Digits(n: nat): (d: nat)
    ensures d >= 1
  {
    if n < 10 then 1 else 1 + Digits(n / 10)
  }

  lemma {:induction false} DigitsLength(n: nat)
    ensures |ToDecimal(n)| == Digits(n)
    decreases n
  {
    if n >= 10 {
      DigitsLength(n / 10);
    }
  }

  /** Digit concatenation of lhs and next: lhs shifted left by the digits of next, plus next. */
  function Concat(lhs: nat, next: nat): nat
  {
    lhs * Pow10(Digits(next)) + next
  }

  /** The shift is int(str(lhs) + str(next)): reading the two digit strings side by side. */
  lemma ConcatIsText(lhs: nat, next: nat)
    ensures IsDigits(ToDecimal(lhs) + ToDecimal(next))
    ensures Concat(lhs, next) == FromDecimal(ToDecimal(lhs) + ToDecimal(next))
  {
    var a, b := ToDecimal(lhs), ToDecimal(next);
    DigitsAppend(a, b);
    FromDecimalAppend(a, b);
    DecimalRoundTrip(lhs);
    DecimalRoundTrip(next);
    DigitsLength(next);
  }

  /** get_sum: tries *, then +, then concatenation on the running value and the next number,
      and returns the first non-zero result; the target when the numbers are used up and the
      running value equals it, otherwise 0 (False). */
  function GetSum(target: nat, lhs: nat, components: seq<nat>): (r: nat)
    ensures r == 0 || r == target
    decreases |components|
  {
    if |components| == 0 then (if lhs == target then lhs else 0)
    else
      var next := components[0];
      var rest := components[1..];
      var multAnswer := GetSum(target, lhs * next, rest);
      if multAnswer != 0 then multAnswer
      else
        var addAnswer := GetSum(target, lhs + next, rest);
        if addAnswer != 0 then addAnswer
        else
          var concatAnswer := GetSum(target, Concat(lhs, next), rest);
          if concatAnswer != 0 then concatAnswer
          else 0
  }

  /** Every value reachable by evaluating the numbers left to right with any choice of the
      three operators. */
  function Values(lhs: nat, components: seq<nat>): set<nat>
    decreases |components|
  {
    if |components| == 0 then {lhs}
    else
      var next := components[0];
      var rest := components[1..];
      Values(lhs * next, rest) + Values(lhs + next, rest) + Values(Concat(lhs, next), rest)
  }

  /** get_sum succeeds exactly when the target is non-zero and some choice of operators
      reaches it. */
  lemma {:induction false} GetSumFindsReachable(target: nat, lhs: nat, components: seq<nat>)
    ensures GetSum(target, lhs, components) != 0 <==> target != 0 && target in Values(lhs, components)
    decreases |components|
  {
    if |components| > 0 {
      var next := components[0];
      var rest := components[1..];
      var m, a, c := lhs * next, lhs + next, Concat(lhs, next);
      GetSumFindsReachable(target, m, rest);
      GetSumFindsReachable(target, a, rest);
      GetSumFindsReachable(target, c, rest);
    }
  }

  /** An equation: the test value and its numbers. */
  datatype Equation = Equation(answer: nat, components: seq<nat>)

  /** The sum of the solvable equations' test values; the first number is the starting value,
      and an equation with no numbers fails, as popping from an empty list does. */
  function ValidSum(problems: seq<Equation>): Result<nat>
  {
    if problems == [] then Ok(0)
    else
      match ValidSum(problems[..|problems| - 1])
      case Err(m) => Err(m)
      case Ok(s) =>
        var p := problems[|problems| - 1];
        if |p.components| == 0 then Err("pop from empty list")
        else Ok(s + GetSum(p.answer, p.components[0], p.components[1..]))
  }

  /** The valid_sum loop. */
  method SumValidEquations(problems: seq<Equation>) returns (r: Result<nat>)
    ensures r == ValidSum(problems)
  {
    var validSum := 0;
    var k := 0;
    while k < |problems|
      invariant 0 <= k <= |problems|
      invariant ValidSum(problems[..k]) == Ok(validSum)
    {
      assert problems[..k + 1][..k] == problems[..k];
      var components := problems[k].components;
      if |components| == 0 {
        ErrorStops(problems, k + 1);
        return Err("pop from empty list");
      }
      var firstComponent := components[0];
      components := components[1..];
      var testValue := GetSum(problems[k].answer, firstComponent, components);
      if testValue != 0 {
        validSum := validSum + testValue;
      }
      k := k + 1;
    }
    assert problems[..k] == problems;
    return Ok(validSum);
  }

  lemma {:induction false} ErrorStops(problems: seq<Equation>, k: int)
    requires 0 <= k <= |problems| && ValidSum(problems[..k]).Err?
    ensures ValidSum(problems) == ValidSum(problems[..k])
    decreases |problems| - k
  {
    if k < |problems| {
      assert problems[..k + 1][..k] == problems[..k];
      ErrorStops(problems, k + 1);
    } else {
      assert problems[..k] == problems;
    }
  }

  /** Small equations: 190 = 10 * 19 and 3267 = 81 + 40 * 27
      are found, and 83 from 17 and 5 is not. */
  lemma Fixtures()
    ensures GetSum(190, 10, [19]) == 190
    ensures GetSum(3267, 81, [40, 27]) == 3267
    ensures GetSum(83, 17, [5]) == 0
  {
  }
}
