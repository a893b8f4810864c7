/** Claw machines: button A moves the claw by one offset, button B by another, and a prize
    is won when some number of presses of each lands exactly on it. */
module ClawMachine {

  /** The most presses of either button the search tries. */
  const MaxPresses := 100
  const CostA := 3
  const CostB := 1

  /** Offsets and prize positions are read as unsigned decimal numbers. */
  datatype ProblemSpec = ProblemSpec(buttonA: (nat, nat), buttonB: (nat, nat), prize: (nat, nat))

  datatype Option<T> = None | Some(value: T)

  /** a presses of A and b presses of B land exactly on the prize on both axes. */
  predicate Wins(spec: ProblemSpec, a: int, b: int)
  {
    && a * spec.buttonA.0 + b * spec.buttonB.0 == spec.prize.0
    && a * spec.buttonA.1 + b * spec.buttonB.1 == spec.prize.1
  }

  /** Lexicographic order on press counts: by a, then by b. */
  predicate NotAfter(p: (nat, nat), q: (nat, nat))
  {
    p.0 < q.0 || (p.0 == q.0 && p.1 <= q.1)
  }

  lemma MulMono(b: nat, b': nat, x: nat)
    requires b <= b'
    ensures b * x <= b' * x
  {
  }

  /** Once the x total overshoots at b presses of B, it overshoots for every larger count. */
  lemma OvershootStays(spec: ProblemSpec, a: nat, b: nat, b': nat)
    requires b <= b' && a * spec.buttonA.0 + b * spec.buttonB.0 > spec.prize.0
    ensures !Wins(spec, a, b')
  {
    MulMono(b, b', spec.buttonB.0);
  }

  /** get_combo_for_winning: tries a = 0..100 and, for each, b = 0..100, returning the first
      exact hit. The inner loop stops early when the x total overshoots the prize; its second
      test compares the y total with itself, so it never stops the loop. With non-negative
      offsets the early stop skips no solution, so the result is the first winning pair in
      order of a, then b, and None means no pair within 100 presses wins. */
  method GetComboForWinning(spec: ProblemSpec) returns (r: Option<(nat, nat)>)
    ensures r.Some? ==> r.value.0 <= MaxPresses && r.value.1 <= MaxPresses && Wins(spec, r.value.0, r.value.1)
    ensures r.Some? ==> forall a: nat, b: nat :: a <= MaxPresses && b <= MaxPresses && Wins(spec, a, b) ==> NotAfter(r.value, (a, b))
    ensures r.None? <==> forall a: nat, b: nat :: a <= MaxPresses && b <= MaxPresses ==> !Wins(spec, a, b)
  {
    var a := 0;
    while a < MaxPresses + 1
      invariant 0 <= a <= MaxPresses + 1
      invariant forall a': nat, b': nat :: a' < a && b' <= MaxPresses ==> !Wins(spec, a', b')
    {
      var b := 0;
      while b < MaxPresses + 1
        invariant 0 <= b <= MaxPresses + 1
        invariant forall b': nat :: b' < b ==> !Wins(spec, a, b')
      {
        var testX := a * spec.buttonA.0 + b * spec.buttonB.0;
        var testY := a * spec.buttonA.1 + b * spec.buttonB.1;
        if testX == spec.prize.0 && testY == spec.prize.1 {
          return Some((a, b));
        }
        if testX > spec.prize.0 || testY > testY {
          forall b': nat | b <= b' ensures !Wins(spec, a, b') {
            OvershootStays(spec, a, b, b');
          }
          break;
        }
        b := b + 1;
      }
      a := a + 1;
    }
    return None;
  }

  /** The token cost of a combination: 3 per press of A, 1 per press of B. */
  function Tokens(combo: (int, int)): int
  {
    combo.0 * CostA + combo.1 * CostB
  }

  /** Two buttons in the same direction: A = (4, 4), B = (1, 1), the prize at (4, 4). */
  const Collinear := ProblemSpec((4, 4), (1, 1), (4, 4))

  /** The first win in search order need not be the cheapest: on Collinear the search meets
      (0, 4) before (1, 0), which costs less. */
  lemma FirstWinCanCostMore(a: nat, b: nat)
    requires Wins(Collinear, a, b) && NotAfter((a, b), (0, 4))
    ensures a == 0 && b == 4
    ensures Wins(Collinear, 1, 0) && Tokens((1, 0)) < Tokens((a, b))
  {
    assert a == 0;
  }

  // ---- The linear solve on the altered machines ----

  datatype Result<T> = Ok(value: T) | Err(msg: string)

  /** Part two moves every prize by 10^13 on both axes. */
  const Offset := 10000000000000

  /** np.isclose with atol=1e-04: a value passes when it lies within 1/Tolerance of an integer. */
  const Tolerance := 10000

  /** numpy's message for a matrix without an inverse. */
  const SingularMatrixMessage := "Singular matrix"

  function Abs(x: int): nat
  {
    if x < 0 then -x else x
  }

  /** The determinant of the button matrix [[ax, bx], [ay, by]]. */
  function Det(spec: ProblemSpec): int
  {
    spec.buttonA.0 * spec.buttonB.1 - spec.buttonB.0 * spec.buttonA.1
  }

  /** Cramer's rule: the solution of the 2 x 2 system is (NumeratorA / Det, NumeratorB / Det). */
  function NumeratorA(spec: ProblemSpec): int
  {
    spec.prize.0 * spec.buttonB.1 - spec.buttonB.0 * spec.prize.1
  }

  function NumeratorB(spec: ProblemSpec): int
  {
    spec.buttonA.0 * spec.prize.1 - spec.buttonA.1 * spec.prize.0
  }

  /** round(n / d): an integer nearest to the quotient. An exact tie never passes the
      tolerance, so how ties go makes no difference. */
  function Nearest(n: int, d: int): (q: int)
    requires d != 0
    ensures 2 * Abs(n - q * d) <= Abs(d)
    decreases if d < 0 then 1 else 0
  {
    if d < 0 then Nearest(-n, -d)
    else
      var q := (2 * n + d) / (2 * d);
      RoundedQuotient(n, d);
      q
  }

  lemma RoundedQuotient(n: int, d: int)
    requires d > 0
    ensures -d <= 2 * (n - (2 * n + d) / (2 * d) * d) <= d
  {
    var q, r := (2 * n + d) / (2 * d), (2 * n + d) % (2 * d);
    assert 2 * n + d == q * (2 * d) + r && 0 <= r < 2 * d;
    assert 2 * (n - q * d) == r - d;
  }

  /** n / d is an integer exactly when n = q * d for the nearest q. */
  lemma NearestOfMultiple(q: int, d: int)
    requires d != 0
    ensures Nearest(q * d, d) == q
  {
    var r := Nearest(q * d, d);
    assert q * d - r * d == (q - r) * d;
    AbsProduct(q - r, d);
  }

  lemma AbsProduct(x: int, d: int)
    requires d != 0 && 2 * Abs(x * d) <= Abs(d)
    ensures x == 0
  {

  }

  /** np.isclose(n / d, round(n / d), rtol=0, atol=1e-04), in exact arithmetic. */
  predicate CloseToInteger(n: int, d: int)
    requires d != 0
  {
    Tolerance * Abs(n - Nearest(n, d) * d) <= Abs(d)
  }

  /** optimized_int_combo: solves the button system and returns the rounded solution when
      both components are integers within the tolerance; a singular matrix raises. */
  function OptimizedIntCombo(spec: ProblemSpec): (r: Result<Option<(int, int)>>)
    ensures r.Err? <==> Det(spec) == 0
    ensures r.Err? ==> r.msg == SingularMatrixMessage
  {
    var d := Det(spec);
    if d == 0 then Err(SingularMatrixMessage)
    else
      var na, nb := NumeratorA(spec), NumeratorB(spec);
      if CloseToInteger(na, d) && CloseToInteger(nb, d) then Ok(Some((Nearest(na, d), Nearest(nb, d))))
      else Ok(None)
  }

  /** A win satisfies Cramer's rule: a * Det is the first numerator and b * Det the second. */
  lemma WinSolvesSystem(spec: ProblemSpec, a: int, b: int)
    requires Wins(spec, a, b)
    ensures a * Det(spec) == NumeratorA(spec) && b * Det(spec) == NumeratorB(spec)
  {
    var xa, ya, xb, yb := spec.buttonA.0, spec.buttonA.1, spec.buttonB.0, spec.buttonB.1;
    var xp, yp := spec.prize.0, spec.prize.1;
    calc {
      NumeratorA(spec);
      (a * xa + b * xb) * yb - xb * (a * ya + b * yb);
      a * (xa * yb - xb * ya);
    }
    calc {
      NumeratorB(spec);
      xa * (a * ya + b * yb) - ya * (a * xa + b * xb);
      b * (xa * yb - xb * ya);
    }
  }

  /** Conversely, a solution of Cramer's rule wins, when the determinant is not zero. */
  lemma SystemSolutionWins(spec: ProblemSpec, a: int, b: int)
    requires Det(spec) != 0 && a * Det(spec) == NumeratorA(spec) && b * Det(spec) == NumeratorB(spec)
    ensures Wins(spec, a, b)
  {
    var xa, ya, xb, yb := spec.buttonA.0, spec.buttonA.1, spec.buttonB.0, spec.buttonB.1;
    var xp, yp := spec.prize.0, spec.prize.1;
    var d := Det(spec);
    CramerIdentity(xa, ya, xb, yb, xp, yp);
    CramerAxis(xa, xb, xp, a, b, d, NumeratorA(spec), NumeratorB(spec));
    CramerAxis(ya, yb, yp, a, b, d, NumeratorA(spec), NumeratorB(spec));
  }

  /** Multiplying Cramer's numerators back by one row of the matrix gives that row's prize
      times the determinant. */
  lemma CramerIdentity(xa: int, ya: int, xb: int, yb: int, xp: int, yp: int)
    ensures xa * (xp * yb - xb * yp) + xb * (xa * yp - ya * xp) == xp * (xa * yb - xb * ya)
    ensures ya * (xp * yb - xb * yp) + yb * (xa * yp - ya * xp) == yp * (xa * yb - xb * ya)
  {
  }

  /** One axis of the converse: from a * d = na and b * d = nb, u * na + v * nb = p * d gives
      a * u + b * v = p. */
  lemma CramerAxis(u: int, v: int, p: int, a: int, b: int, d: int, na: int, nb: int)
    requires d != 0 && a * d == na && b * d == nb && u * na + v * nb == p * d
    ensures a * u + b * v == p
  {
    assert (a * u + b * v - p) * d == u * (a * d) + v * (b * d) - p * d;
    ZeroFactor(a * u + b * v - p, d);
  }

  lemma ZeroFactor(x: int, d: int)
    requires d != 0 && x * d == 0
    ensures x == 0
  {
  }

  /** With a non-zero determinant at most one combination wins. */
  lemma UniqueWin(spec: ProblemSpec, a: int, b: int, a': int, b': int)
    requires Det(spec) != 0 && Wins(spec, a, b) && Wins(spec, a', b')
    ensures a == a' && b == b'
  {
    WinSolvesSystem(spec, a, b);
    WinSolvesSystem(spec, a', b');
    ZeroFactor(a - a', Det(spec));
    ZeroFactor(b - b', Det(spec));
  }

  /** Whenever some combination wins, the solve finds exactly it. */
  lemma SolveFindsWin(spec: ProblemSpec, a: int, b: int)
    requires Det(spec) != 0 && Wins(spec, a, b)
    ensures OptimizedIntCombo(spec) == Ok(Some((a, b)))
  {
    WinSolvesSystem(spec, a, b);
    NearestOfMultiple(a, Det(spec));
    NearestOfMultiple(b, Det(spec));
  }

  /** While the determinant is below the tolerance's reciprocal, a near-integer quotient is an
      exact one, so every combination the solve returns wins. */
  lemma SolveIsSound(spec: ProblemSpec)
    requires 0 < Abs(Det(spec)) < Tolerance && OptimizedIntCombo(spec).Ok? && OptimizedIntCombo(spec).value.Some?
    ensures Wins(spec, OptimizedIntCombo(spec).value.value.0, OptimizedIntCombo(spec).value.value.1)
  {
    var d := Det(spec);
    var a, b := Nearest(NumeratorA(spec), d), Nearest(NumeratorB(spec), d);
    assert Abs(NumeratorA(spec) - a * d) == 0;
    assert Abs(NumeratorB(spec) - b * d) == 0;
    SystemSolutionWins(spec, a, b);
  }

  /** The loop body's contribution for one machine: an error when the solve raises, nothing
      when no combination is returned, and otherwise its token cost. */
  function ComboTokens(spec: ProblemSpec): Result<int>
  {
    match OptimizedIntCombo(spec)
    case Err(msg) => Err(msg)
    case Ok(None) => Ok(0)
    case Ok(Some(combo)) => Ok(Tokens(combo))
  }

  /** On a machine whose determinant is non-zero and below the tolerance's reciprocal, the
      contribution is the cost of the one winning combination, or 0 when none wins. */
  lemma ComboTokensIsWinCost(spec: ProblemSpec)
    requires 0 < Abs(Det(spec)) < Tolerance
    ensures forall a: int, b: int :: Wins(spec, a, b) ==> ComboTokens(spec) == Ok(Tokens((a, b)))
    ensures (forall a: int, b: int :: !Wins(spec, a, b)) ==> ComboTokens(spec) == Ok(0)
  {
    forall a: int, b: int | Wins(spec, a, b) ensures ComboTokens(spec) == Ok(Tokens((a, b))) {
      SolveFindsWin(spec, a, b);
    }
    if OptimizedIntCombo(spec).value.Some? {
      SolveIsSound(spec);
    }
  }

  /** The token total over a list of machines; the first machine whose solve raises stops the
      loop with that error. */
  function TokenTotal(specs: seq<ProblemSpec>): Result<int>
  {
    if specs == [] then Ok(0)
    else
      match TokenTotal(specs[..|specs| - 1])
      case Err(msg) => Err(msg)
      case Ok(total) =>
        match ComboTokens(specs[|specs| - 1])
        case Err(msg) => Err(msg)
        case Ok(tokens) => Ok(total + tokens)
  }

  /** The total fails exactly when some machine has a singular button matrix. */
  lemma {:induction false} TokenTotalFails(specs: seq<ProblemSpec>)
    ensures TokenTotal(specs).Err? <==> exists k :: 0 <= k < |specs| && Det(specs[k]) == 0
  {
    if specs != [] {
      var init := specs[..|specs| - 1];
      TokenTotalFails(init);
      assert forall k :: 0 <= k < |init| ==> init[k] == specs[k];
    }
  }

  /** An error in a prefix is the error of the whole list. */
  lemma {:induction false} TokenTotalErrorStops(specs: seq<ProblemSpec>, i: nat)
    requires i <= |specs| && TokenTotal(specs[..i]).Err?
    ensures TokenTotal(specs) == TokenTotal(specs[..i])
    decreases |specs| - i
  {
    if i < |specs| {
      assert specs[..i + 1][..i] == specs[..i];
      TokenTotalErrorStops(specs, i + 1);
    } else {
      assert specs[..i] == specs;
    }
  }

  /** altered_specs: every prize moved by Offset on both axes; the buttons are unchanged, so
      each determinant is too. */
  function AlterSpecs(specs: seq<ProblemSpec>): (r: seq<ProblemSpec>)
    ensures |r| == |specs|
    ensures forall k :: 0 <= k < |specs| ==> r[k].prize == (specs[k].prize.0 + Offset, specs[k].prize.1 + Offset)
    ensures forall k :: 0 <= k < |specs| ==> Det(r[k]) == Det(specs[k])
  {
    seq(|specs|, k requires 0 <= k < |specs| => specs[k].(prize := (specs[k].prize.0 + Offset, specs[k].prize.1 + Offset)))
  }

  /** The token loop over the altered machines: machines without a combination are skipped,
      and the others add 3a + b. */
  method TotalTokensFor(specs: seq<ProblemSpec>) returns (r: Result<int>)
    ensures r == TokenTotal(AlterSpecs(specs))
  {
    var alteredSpecs := AlterSpecs(specs);
    var totalTokens := 0;
    var i := 0;
    while i < |alteredSpecs|
      invariant 0 <= i <= |alteredSpecs|
      invariant TokenTotal(alteredSpecs[..i]) == Ok(totalTokens)
    {
      assert alteredSpecs[..i + 1][..i] == alteredSpecs[..i];
      var winningCombo := OptimizedIntCombo(alteredSpecs[i]);
      if winningCombo.Err? {
        TokenTotalErrorStops(alteredSpecs, i + 1);
        return Err(winningCombo.msg);
      }
      if winningCombo.value.Some? {
        totalTokens := totalTokens + winningCombo.value.value.0 * CostA + winningCombo.value.value.1 * CostB;
      }
      i := i + 1;
    }
    assert alteredSpecs[..i] == alteredSpecs;
    return Ok(totalTokens);
  }
}
