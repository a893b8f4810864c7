/** Sums of integer functions over half-open ranges, and the rearrangements the counting
    arguments need. */
module FiniteSums {

  /** f(lo) + ... + f(hi - 1). */
  ghost function Sum(lo: int, hi: int, f: int -> int): int
    decreases hi - lo
  {
    if lo >= hi then 0 else f(lo) + Sum(lo + 1, hi, f)
  }

  /** Sums of functions that agree on the range are equal. */
  lemma {:induction false} SumExt(lo: int, hi: int, f: int -> int, g: int -> int)
    requires forall x :: lo <= x < hi ==> f(x) == g(x)
    ensures Sum(lo, hi, f) == Sum(lo, hi, g)
    decreases hi - lo
  {
    if lo < hi {
      SumExt(lo + 1, hi, f, g);
    }
  }

  /** Peeling off the last term. */
  lemma {:induction false} SumLast(lo: int, hi: int, f: int -> int)
    requires lo < hi
    ensures Sum(lo, hi, f) == Sum(lo, hi - 1, f) + f(hi - 1)
    decreases hi - lo
  {
    if lo < hi - 1 {
      SumLast(lo + 1, hi, f);
    }
  }

  /** The sum of a pointwise sum. */
  lemma {:induction false} SumAdd(lo: int, hi: int, f: int -> int, g: int -> int, h: int -> int)
    requires forall x :: lo <= x < hi ==> h(x) == f(x) + g(x)
    ensures Sum(lo, hi, h) == Sum(lo, hi, f) + Sum(lo, hi, g)
    decreases hi - lo
  {
    if lo < hi {
      SumAdd(lo + 1, hi, f, g, h);
    }
  }

  /** A sum whose every term is zero. */
  lemma {:induction false} SumZero(lo: int, hi: int, f: int -> int)
    requires forall x :: lo <= x < hi ==> f(x) == 0
    ensures Sum(lo, hi, f) == 0
    decreases hi - lo
  {
    if lo < hi {
      SumZero(lo + 1, hi, f);
    }
  }

  /** Guarding every term by the same condition guards the sum. */
  lemma {:induction false} SumGuard(lo: int, hi: int, c: bool, f: int -> int, g: int -> int)
    requires forall x :: lo <= x < hi ==> g(x) == if c then f(x) else 0
    ensures Sum(lo, hi, g) == if c then Sum(lo, hi, f) else 0
    decreases hi - lo
  {
    if lo < hi {
      SumGuard(lo + 1, hi, c, f, g);
    }
  }

  /** Shifting the range by one. */
  lemma {:induction false} SumShift(lo: int, hi: int, f: int -> int, g: int -> int)
    requires forall x :: lo <= x < hi ==> g(x) == f(x + 1)
    ensures Sum(lo + 1, hi + 1, f) == Sum(lo, hi, g)
    decreases hi - lo
  {
    if lo < hi {
      SumShift(lo + 1, hi, f, g);
    }
  }

  /** Reading f backwards from c: the terms g(x) = f(c - x) for lo <= x < hi are the terms of f
      over c - hi + 1 .. c - lo. */
  lemma {:induction false} SumMirror(lo: int, hi: int, c: int, f: int -> int, g: int -> int)
    requires forall x :: lo <= x < hi ==> g(x) == f(c - x)
    ensures lo <= hi ==> Sum(lo, hi, g) == Sum(c - hi + 1, c - lo + 1, f)
    decreases hi - lo
  {
    if lo < hi {
      SumMirror(lo + 1, hi, c, f, g);
      SumLast(c - hi + 1, c - lo + 1, f);
    }
  }

  /** Summing the range backwards. */
  lemma SumReflect(lo: int, hi: int, f: int -> int, g: int -> int)
    requires forall x :: lo <= x < hi ==> g(x) == f(lo + hi - 1 - x)
    ensures Sum(lo, hi, f) == Sum(lo, hi, g)
  {
    if lo <= hi {
      SumMirror(lo, hi, lo + hi - 1, f, g);
    }
  }

  /** Row k of the triangle of pairs (k, m) with 1 <= k, 1 <= m and k + m <= n. */
  ghost function Row(n: int, g: (int, int) -> int, k: int): int
  {
    Sum(1, n - k + 1, m => g(k, m))
  }

  /** Column m of the same triangle. */
  ghost function Column(n: int, g: (int, int) -> int, m: int): int
  {
    Sum(1, n - m + 1, k => g(k, m))
  }

  /** The triangle summed by rows. */
  ghost function Rows(n: int, g: (int, int) -> int): int
  {
    Sum(1, n, k => Row(n, g, k))
  }

  /** The triangle summed by columns. */
  ghost function Columns(n: int, g: (int, int) -> int): int
  {
    Sum(1, n, m => Column(n, g, m))
  }

  /** The anti-diagonal k + m == n, walked by k. */
  ghost function Diagonal(n: int, g: (int, int) -> int): int
  {
    Sum(1, n, k => g(k, n - k))
  }

  /** The same anti-diagonal, walked by m. */
  ghost function DiagonalByColumn(n: int, g: (int, int) -> int): int
  {
    Sum(1, n, m => g(n - m, m))
  }

  lemma DiagonalReflect(n: int, g: (int, int) -> int)
    ensures Diagonal(n, g) == DiagonalByColumn(n, g)
  {
    SumReflect(1, n, k => g(k, n - k), m => g(n - m, m));
  }

  /** A row of the bigger triangle is the row of the smaller one and one more pair. */
  lemma RowGrow(n: int, g: (int, int) -> int, k: int)
    requires 1 <= k <= n
    ensures Row(n + 1, g, k) == Row(n, g, k) + g(k, n + 1 - k)
  {
    SumLast(1, n + 2 - k, m => g(k, m));
  }

  lemma ColumnGrow(n: int, g: (int, int) -> int, m: int)
    requires 1 <= m <= n
    ensures Column(n + 1, g, m) == Column(n, g, m) + g(n + 1 - m, m)
  {
    SumLast(1, n + 2 - m, k => g(k, m));
  }

  /** Growing a triangle by one line: each old line gains one term of the new diagonal, and
      the new last line is empty. */
  lemma GrowByDiagonal(n: int, small: int -> int, diagonal: int -> int, big: int -> int)
    requires n >= 1
    requires forall k :: 1 <= k < n + 1 ==> big(k) == small(k) + diagonal(k)
    requires small(n) == 0
    ensures Sum(1, n + 1, big) == Sum(1, n, small) + Sum(1, n + 1, diagonal)
  {
    SumAdd(1, n + 1, small, diagonal, big);
    SumLast(1, n + 1, small);
  }

  /** The triangle for n + 1 is the triangle for n and the anti-diagonal k + m == n + 1. */
  lemma RowsGrow(n: int, g: (int, int) -> int)
    requires n >= 1
    ensures Rows(n + 1, g) == Rows(n, g) + Diagonal(n + 1, g)
  {
    var big := k => Row(n + 1, g, k);
    var small := k => Row(n, g, k);
    forall k | 1 <= k < n + 1 ensures big(k) == small(k) + g(k, n + 1 - k) {
      RowGrow(n, g, k);
    }
    assert small(n) == 0;
    GrowByDiagonal(n, small, k => g(k, n + 1 - k), big);
  }

  lemma ColumnsGrow(n: int, g: (int, int) -> int)
    requires n >= 1
    ensures Columns(n + 1, g) == Columns(n, g) + DiagonalByColumn(n + 1, g)
  {
    var big := m => Column(n + 1, g, m);
    var small := m => Column(n, g, m);
    forall m | 1 <= m < n + 1 ensures big(m) == small(m) + g(n + 1 - m, m) {
      ColumnGrow(n, g, m);
    }
    assert small(n) == 0;
    GrowByDiagonal(n, small, m => g(n + 1 - m, m), big);
  }

  /** Summing the triangle by rows or by columns gives the same total. */
  lemma {:induction false} RowsColumns(n: int, g: (int, int) -> int)
    ensures Rows(n, g) == Columns(n, g)
    decreases n
  {
    if n >= 2 {
      RowsColumns(n - 1, g);
      RowsGrow(n - 1, g);
      ColumnsGrow(n - 1, g);
      DiagonalReflect(n, g);
    }
  }
}
