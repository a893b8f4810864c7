/** Python's str() on non-negative integers and int() on strings of decimal digits. */
module DecimalText {

  function Pow10(k: nat): (r: nat)
    ensures r >= 1
  {
    if k == 0 then 1 else 10 * Pow10(k - 1)
  }

  function DigitChar(d: nat): char
    requires d < 10
  {
    ('0' as int + d) as char
  }

  predicate IsDigits(s: string)
  {
    forall k :: 0 <= k < |s| ==> '0' <= s[k] <= '9'
  }

  /** str(n): the decimal digits without leading zeros ("0" for zero). */
  function ToDecimal(n: nat): (s: string)
    ensures |s| > 0 && IsDigits(s)
    ensures |s| > 1 ==> s[0] != '0'
  {
    if n < 10 then [DigitChar(n)] else ToDecimal(n / 10) + [DigitChar(n % 10)]
  }

  /** int(s) for a string of digits; leading zeros are dropped. */
  function FromDecimal(s: string): nat
    requires IsDigits(s)
  {
    if s == [] then 0 else 10 * FromDecimal(s[..|s| - 1]) + (s[|s| - 1] as int - '0' as int)
  }

  lemma {:induction false} DecimalRoundTrip(n: nat)
    ensures FromDecimal(ToDecimal(n)) == n
  {
    if n >= 10 {
      DecimalRoundTrip(n / 10);
      var s := ToDecimal(n);
      assert s[..|s| - 1] == ToDecimal(n / 10);
    }
  }

  /** Two digit strings side by side are a digit string. */
  lemma DigitsAppend(a: string, b: string)
    requires IsDigits(a) && IsDigits(b)
    ensures IsDigits(a + b)
  {
    forall k | 0 <= k < |a + b| ensures '0' <= (a + b)[k] <= '9' {
      if k >= |a| {
        assert (a + b)[k] == b[k - |a|];
      }
    }
  }

  /** The value of a concatenation of digit strings. */
  lemma {:induction false} FromDecimalAppend(a: string, b: string)
    requires IsDigits(a) && IsDigits(b)
    ensures FromDecimal(a + b) == FromDecimal(a) * Pow10(|b|) + FromDecimal(b)
    decreases |b|
  {
    if b == [] {
      assert a + b == a;
    } else {
      var b' := b[..|b| - 1];
      assert (a + b)[..|a + b| - 1] == a + b';
      FromDecimalAppend(a, b');
      var x, p, y := FromDecimal(a), Pow10(|b'|), FromDecimal(b');
      var dgt := b[|b| - 1] as int - '0' as int;
      assert FromDecimal(a + b) == 10 * (x * p + y) + dgt;
      assert FromDecimal(b) == 10 * y + dgt;
      ShiftDigit(x, p, y, dgt);
    }
  }

  lemma ShiftDigit(x: int, p: int, y: int, dgt: int)
    ensures 10 * (x * p + y) + dgt == x * (10 * p) + (10 * y + dgt)
  {
  }

  lemma {:induction false} FromDecimalBound(s: string)
    requires IsDigits(s)
    ensures FromDecimal(s) < Pow10(|s|)
  {
    if s != [] {
      FromDecimalBound(s[..|s| - 1]);
    }
  }

  /** The value of three digits. */
  lemma ThreeDigitValue(a: char, b: char, c: char)
    requires '0' <= a <= '9' && '0' <= b <= '9' && '0' <= c <= '9'
    ensures IsDigits([a, b, c])
    ensures FromDecimal([a, b, c]) == 100 * (a as int - '0' as int) + 10 * (b as int - '0' as int) + (c as int - '0' as int)
  {
    assert [a, b, c][..2] == [a, b];
    assert [a, b][..1] == [a];
    assert [a][..0] == [];
    assert FromDecimal([a]) == a as int - '0' as int;
    assert FromDecimal([a, b]) == 10 * FromDecimal([a]) + (b as int - '0' as int);
  }
}
