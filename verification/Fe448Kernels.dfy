/** The generated field kernels modulo P = 2^448 - 2^224 - 1 on 16 signed limbs of radix 2^28.

    A kernel is the generator's straight-line program: it loads every input limb, computes, and
    only then stores, so `out` may alias an input. The loops below are the generator's own
    builders; the checked-in file is their unrolling. Every value bound to a name has type
    `I63`, so verifying a kernel proves that it never leaves the 63-bit OCaml integer range. */
module Fe448Kernels {
  import opened Arith
  import opened Congruence
  import opened Prime448
  import opened Radix

  const R: int := 0x1000_0000
  const HALF: int := 0x800_0000
  const TIGHT: int := 0x800_0020
  const SMALL: int := 0x1_0000

  type I63 = x: int | -0x4000_0000_0000_0000 <= x < 0x4000_0000_0000_0000

  predicate Bounded(s: seq<int>, n: nat, bound: int) {
    |s| == n && forall i :: 0 <= i < n ==> -bound <= s[i] <= bound
  }

  predicate Tight(s: seq<int>) {
    Bounded(s, 16, TIGHT)
  }

  /** The field element that 16 limbs stand for, as an unreduced integer. */
  function FeVal(s: seq<int>): int {
    Val(R, s)
  }

  lemma RadixPowers()
    ensures Pow(R, 0) == 1 && Pow(R, 8) == PHI && Pow(R, 16) == PHI * PHI
  {
  }

  // ---------------------------------------------------------------- product columns

  /** Coefficient k of the product of the polynomials x and y. */
  function Conv(x: seq<int>, y: seq<int>, k: int): int {
    if |x| == 0 then 0
    else
      var n := |x| - 1;
      Conv(x[..n], y, k) + (if 0 <= k - n < |y| then x[n] * y[k - n] else 0)
  }

  /** sum over k < m of Conv(x, y, k) * R^k */
  ghost function ConvSum(x: seq<int>, y: seq<int>, m: nat): int {
    if m == 0 then 0 else ConvSum(x, y, m - 1) + Conv(x, y, m - 1) * Pow(R, m - 1)
  }

  /** The part of ConvSum that one digit d at position n contributes. */
  ghost function RowSum(n: nat, d: int, y: seq<int>, m: nat): int {
    if m == 0 then 0
    else RowSum(n, d, y, m - 1) + (if 0 <= m - 1 - n < |y| then d * y[m - 1 - n] else 0) * Pow(R, m - 1)
  }

  lemma {:induction false} RowSumValue(n: nat, d: int, y: seq<int>, m: nat)
    ensures RowSum(n, d, y, m)
         == (d * Pow(R, n)) * Val(R, if m <= n then [] else if m - n <= |y| then y[..m - n] else y)
  {
    if m > 0 {
      RowSumValue(n, d, y, m - 1);
      var j := m - 1 - n;
      if 0 <= j < |y| {
        ValPrefix(R, y, j);
        PowAdd(R, n, j);
        RowStep(d, Pow(R, n), Val(R, y[..j]), y[j], Pow(R, j));
        assert y[..|y|] == y;
      } else if j >= 0 {
        assert y[..|y|] == y;
      }
    }
  }

  lemma RowStep(d: int, w: int, v: int, e: int, u: int)
    ensures (d * w) * (v + e * u) == (d * w) * v + d * e * (w * u)
  {
  }

  lemma {:induction false} ConvSumSplit(x: seq<int>, y: seq<int>, m: nat)
    requires |x| > 0
    ensures ConvSum(x, y, m) == ConvSum(x[..|x| - 1], y, m) + RowSum(|x| - 1, x[|x| - 1], y, m)
  {
    if m > 0 {
      ConvSumSplit(x, y, m - 1);
    }
  }

  lemma {:induction false} ConvSumZero(y: seq<int>, m: nat)
    ensures ConvSum([], y, m) == 0
  {
    if m > 0 {
      ConvSumZero(y, m - 1);
    }
  }

  /** The columns of a product carry the value of the product. */
  lemma {:induction false} ConvSumValue(x: seq<int>, y: seq<int>, m: nat)
    requires m >= |x| + |y|
    ensures ConvSum(x, y, m) == Val(R, x) * Val(R, y)
  {
    if |x| == 0 {
      ConvSumZero(y, m);
    } else {
      var n := |x| - 1;
      ConvSumValue(x[..n], y, m);
      ConvSumSplit(x, y, m);
      RowSumValue(n, x[n], y, m);
      assert y[..|y|] == y;
    }
  }

  lemma {:induction false} ConvSumIsVal(x: seq<int>, y: seq<int>, cols: seq<int>)
    requires forall k :: 0 <= k < |cols| ==> cols[k] == Conv(x, y, k)
    ensures Val(R, cols) == ConvSum(x, y, |cols|)
  {
    if |cols| > 0 {
      ConvSumIsVal(x, y, cols[..|cols| - 1]);
    }
  }

  lemma {:induction false} ConvAboveTop(x: seq<int>, y: seq<int>, k: int)
    requires k >= |x| + |y| - 1
    ensures Conv(x, y, k) == 0
  {
    if |x| > 0 {
      ConvAboveTop(x[..|x| - 1], y, k);
    }
  }

  lemma ColumnsValue(x: seq<int>, y: seq<int>, cols: seq<int>)
    requires |x| == |y| == 8 && |cols| == 15
    requires forall k :: 0 <= k < 15 ==> cols[k] == Conv(x, y, k)
    ensures Val(R, cols) == Val(R, x) * Val(R, y)
  {
    ConvSumIsVal(x, y, cols);
    ConvAboveTop(x, y, 15);
    assert ConvSum(x, y, 16) == ConvSum(x, y, 15);
    ConvSumValue(x, y, 16);
  }

  lemma {:induction false} ConvBound(x: seq<int>, y: seq<int>, k: int, bound: int)
    requires bound >= 0 && Bounded(x, |x|, bound) && Bounded(y, |y|, bound)
    ensures -(|x| * (bound * bound)) <= Conv(x, y, k) <= |x| * (bound * bound)
  {
    if |x| > 0 {
      var n := |x| - 1;
      ConvBound(x[..n], y, k, bound);
      if 0 <= k - n < |y| {
        ProductBound(x[n], y[k - n], bound);
      }
      OneMore(n, bound * bound);
    }
  }

  /** Twice the largest product of two sums of tight limbs. */
  const WIDEST: int := 8 * TIGHT * TIGHT

  /** Columns 0..14 of the product of two 8-limb vectors, each partial sum in range. */
  method ProductColumns(x: seq<I63>, y: seq<I63>, ghost bound: int) returns (cols: seq<I63>)
    requires 0 <= bound <= 2 * TIGHT && Bounded(x, 8, bound) && Bounded(y, 8, bound)
    ensures Bounded(cols, 15, 8 * (bound * bound))
    ensures Val(R, cols) == Val(R, x) * Val(R, y)
  {
    cols := [];
    for k := 0 to 15
      invariant Bounded(cols, k, 8 * (bound * bound))
      invariant forall l :: 0 <= l < k ==> cols[l] == Conv(x, y, l)
    {
      var acc: I63 := 0;
      for i := 0 to 8
        invariant acc == Conv(x[..i], y, k)
        invariant -(i * WIDEST) <= acc <= i * WIDEST
      {
        var j := k - i;
        assert x[..i + 1][..i] == x[..i];
        if 0 <= j < 8 {
          ProductBound(x[i], y[j], 2 * TIGHT);
          var term: I63 := x[i] * y[j];
          acc := acc + term;
        }
      }
      assert x[..8] == x;
      ConvBound(x, y, k, bound);
      cols := cols + [acc];
    }
    ColumnsValue(x, y, cols);
  }

  // ---------------------------------------------------------------- columns of a square

  function Term(x: seq<int>, i: int, j: int): int {
    if 0 <= i < |x| && 0 <= j < |x| then x[i] * x[j] else 0
  }

  /** sum of x[i] * x[k - i] for lo <= i < hi */
  function TermSum(x: seq<int>, k: int, lo: int, hi: int): int
    decreases hi - lo
  {
    if hi <= lo then 0 else TermSum(x, k, lo, hi - 1) + Term(x, hi - 1, k - hi + 1)
  }

  /** What squaring adds for the pair (i, j): a doubled cross term once, the diagonal once. */
  function SquareTerm(x: seq<int>, i: int, j: int): int {
    if 0 <= i < j < |x| then (x[i] + x[i]) * x[j]
    else if 0 <= i == j < |x| then x[i] * x[j]
    else 0
  }

  function SquareSum(x: seq<int>, k: int, lo: int): int
    decreases k - 2 * lo
  {
    if 2 * lo > k then 0 else SquareTerm(x, lo, k - lo) + SquareSum(x, k, lo + 1)
  }

  lemma {:induction false} TermSumLow(x: seq<int>, k: int, lo: int, hi: int)
    requires lo < hi
    ensures TermSum(x, k, lo, hi) == Term(x, lo, k - lo) + TermSum(x, k, lo + 1, hi)
    decreases hi - lo
  {
    if lo + 1 < hi {
      TermSumLow(x, k, lo, hi - 1);
    }
  }

  /** Folding the sum at its middle: doubled cross terms cover both orders. */
  lemma {:induction false} SquareFold(x: seq<int>, k: int, lo: int)
    ensures TermSum(x, k, lo, k + 1 - lo) == SquareSum(x, k, lo)
    decreases k - 2 * lo
  {
    if 2 * lo <= k {
      TermSumLow(x, k, lo, k + 1 - lo);
      SquareFold(x, k, lo + 1);
      if 2 * lo < k {
        assert TermSum(x, k, lo + 1, k + 1 - lo) == TermSum(x, k, lo + 1, k - lo) + Term(x, k - lo, lo);
      }
    }
  }

  lemma {:induction false} TermSumIsConv(x: seq<int>, k: int, n: nat)
    ensures TermSum(x, k, 0, n) == Conv(if n <= |x| then x[..n] else x, x, k)
  {
    assert x[..|x|] == x;
    if n > 0 {
      TermSumIsConv(x, k, n - 1);
      if n <= |x| {
        assert x[..n][..n - 1] == x[..n - 1];
      }
    }
  }

  lemma {:induction false} ConvTopIndex(x: seq<int>, k: nat, n: nat)
    requires k < n <= |x|
    ensures Conv(x[..n], x, k) == Conv(x[..k + 1], x, k)
  {
    if k < n - 1 {
      assert x[..n][..n - 1] == x[..n - 1];
      ConvTopIndex(x, k, n - 1);
    }
  }

  lemma SquareColumn(x: seq<int>, k: nat)
    ensures SquareSum(x, k, 0) == Conv(x, x, k)
  {
    SquareFold(x, k, 0);
    TermSumIsConv(x, k, k + 1);
    assert x[..|x|] == x;
    if k < |x| {
      ConvTopIndex(x, k, |x|);
    }
  }

  lemma SquareTermBound(x: seq<int>, i: nat, j: nat)
    requires i <= j < |x| && Bounded(x, 8, 2 * TIGHT)
    ensures -WIDEST <= SquareTerm(x, i, j) <= WIDEST
  {
    ProductBound(x[i], x[j], 2 * TIGHT);
    assert (x[i] + x[i]) * x[j] == 2 * (x[i] * x[j]);
  }

  method SquareColumnOf(x: seq<I63>, k: nat) returns (acc: I63)
    requires k < 15 && Bounded(x, 8, 2 * TIGHT)
    ensures acc == Conv(x, x, k)
  {
    acc := 0;
    for i := 0 to 8
      invariant acc + SquareSum(x, k, i) == SquareSum(x, k, 0)
      invariant -(i * WIDEST) <= acc <= i * WIDEST
    {
      var j := k - i;
      if i <= j < 8 {
        SquareTermBound(x, i, j);
        if i < j {
          var doubled: I63 := x[i] + x[i];
          var term: I63 := doubled * x[j];
          acc := acc + term;
        } else {
          var term: I63 := x[i] * x[j];
          acc := acc + term;
        }
      }
    }
    SquareColumn(x, k);
  }

  /** Columns 0..14 of the square of an 8-limb vector, with doubled limbs for cross terms. */
  method SquareColumns(x: seq<I63>, ghost bound: int) returns (cols: seq<I63>)
    requires 0 <= bound <= 2 * TIGHT && Bounded(x, 8, bound)
    ensures Bounded(cols, 15, 8 * (bound * bound))
    ensures Val(R, cols) == Val(R, x) * Val(R, x)
  {
    cols := [];
    for k := 0 to 15
      invariant Bounded(cols, k, 8 * (bound * bound))
      invariant forall l :: 0 <= l < k ==> cols[l] == Conv(x, x, l)
    {
      var column := SquareColumnOf(x, k);
      ConvBound(x, x, k, bound);
      cols := cols + [column];
    }
    ColumnsValue(x, x, cols);
  }

  // ---------------------------------------------------------------- golden-ratio recombination

  lemma {:induction false} ValCombine(r: seq<int>, p: seq<int>, q: seq<int>, s: seq<int>, m: seq<int>)
    requires |r| == |p| == |q| == |s| == |m|
    requires forall i :: 0 <= i < |r| ==> r[i] == p[i] + q[i] + s[i] - m[i]
    ensures Val(R, r) == Val(R, p) + Val(R, q) + Val(R, s) - Val(R, m)
  {
    if |r| > 0 {
      var n := |r| - 1;
      ValCombine(r[..n], p[..n], q[..n], s[..n], m[..n]);
      assert (p[n] + q[n] + s[n] - m[n]) * Pow(R, n)
          == p[n] * Pow(R, n) + q[n] * Pow(R, n) + s[n] * Pow(R, n) - m[n] * Pow(R, n);
    }
  }

  /** a b = (L + H) + (S - L) PHI modulo P, with the columns from 8 up folded once more. */
  lemma GoldenRatio(a: int, a0: int, a1: int, b: int, b0: int, b1: int,
                    l: int, l0: int, l1: int, h: int, h0: int, h1: int, s: int, s0: int, s1: int)
    requires a == a0 + PHI * a1 && b == b0 + PHI * b1
    requires l == l0 + PHI * l1 && h == h0 + PHI * h1 && s == s0 + PHI * s1
    requires l == a0 * b0 && h == a1 * b1 && s == (a0 + a1) * (b0 + b1)
    ensures Cong((l0 + h0 + s1 - l1) + PHI * (s0 + h1 + s1 - l0), a * b, P)
  {
    var cross := a0 * b1 + a1 * b0;
    assert s == l + cross + h;
    assert a * b == l + PHI * cross + PHI * PHI * h;
    PrimeValue();
    CongIntro((l0 + h0 + s1 - l1) + PHI * (s0 + h1 + s1 - l0), a * b, P, -(h + s1 - l1));
  }

  /** Columns j and 8 + j of the recombined product. */
  function LowAt(low: seq<int>, high: seq<int>, sums: seq<int>, j: nat): int
    requires |low| == |high| == |sums| == 15 && j < 8
  {
    low[j] + high[j] + if j < 7 then sums[j + 8] - low[j + 8] else 0
  }

  function HighAt(low: seq<int>, high: seq<int>, sums: seq<int>, j: nat): int
    requires |low| == |high| == |sums| == 15 && j < 8
  {
    sums[j] + (if j < 7 then high[j + 8] + sums[j + 8] else 0) - low[j]
  }

  lemma RecombinedColumns(low: seq<int>, high: seq<int>, sums: seq<int>, lo: seq<int>, hi: seq<int>)
    requires |low| == |high| == |sums| == 15 && |lo| == |hi| == 8
    requires forall j :: 0 <= j < 8 ==> lo[j] == LowAt(low, high, sums, j) && hi[j] == HighAt(low, high, sums, j)
    ensures Val(R, lo + hi)
         == (Val(R, low[..8]) + Val(R, high[..8]) + Val(R, sums[8..]) - Val(R, low[8..]))
            + PHI * (Val(R, sums[..8]) + Val(R, high[8..]) + Val(R, sums[8..]) - Val(R, low[..8]))
  {
    ValCombine(lo, low[..8], high[..8], sums[8..] + [0], low[8..] + [0]);
    ValCombine(hi, sums[..8], high[8..] + [0], sums[8..] + [0], low[..8]);
    ValSnoc(R, sums[8..], 0);
    ValSnoc(R, low[8..], 0);
    ValSnoc(R, high[8..], 0);
    ValAppend(R, lo, hi);
    RadixPowers();
  }

  /** The sixteen result columns of a product, before any carry. */
  method ResultColumns(low: seq<I63>, high: seq<I63>, sums: seq<I63>) returns (cols: seq<I63>)
    requires Bounded(low, 15, WIDEST) && Bounded(high, 15, WIDEST) && Bounded(sums, 15, 4 * WIDEST)
    ensures Bounded(cols, 16, 10 * WIDEST)
    ensures forall j :: 0 <= j < 8 ==> cols[..8][j] == LowAt(low, high, sums, j) && cols[8..][j] == HighAt(low, high, sums, j)
  {
    var lo: seq<I63> := [];
    for j := 0 to 8
      invariant Bounded(lo, j, 7 * WIDEST)
      invariant forall i :: 0 <= i < j ==> lo[i] == LowAt(low, high, sums, i)
    {
      var r: I63 := low[j] + high[j];
      if j + 8 < 15 {
        r := r + sums[j + 8];
        r := r - low[j + 8];
      }
      lo := lo + [r];
    }
    var hi: seq<I63> := [];
    for j := 0 to 8
      invariant Bounded(hi, j, 10 * WIDEST)
      invariant forall i :: 0 <= i < j ==> hi[i] == HighAt(low, high, sums, i)
    {
      var r: I63 := sums[j];
      if j + 8 < 15 {
        r := r + high[j + 8];
        r := r + sums[j + 8];
      }
      r := r - low[j];
      hi := hi + [r];
    }
    cols := lo + hi;
    assert cols[..8] == lo && cols[8..] == hi;
  }

  /** The halves of the operands, and the three half products. */
  predicate HalfProducts(x: seq<int>, y: seq<int>, low: seq<int>, high: seq<int>, sums: seq<int>, a0: int, a1: int, b0: int, b1: int) {
    && |x| == |y| == 16 && |low| == |high| == |sums| == 15
    && Val(R, x[..8]) == a0 && Val(R, x[8..]) == a1 && Val(R, y[..8]) == b0 && Val(R, y[8..]) == b1
    && Val(R, low) == a0 * b0 && Val(R, high) == a1 * b1 && Val(R, sums) == (a0 + a1) * (b0 + b1)
  }

  /** The halves of everything: linear facts only. */
  lemma SplitValues(x: seq<int>, y: seq<int>, low: seq<int>, high: seq<int>, sums: seq<int>, lo: seq<int>, hi: seq<int>)
    returns (l0: int, l1: int, h0: int, h1: int, s0: int, s1: int)
    requires |x| == |y| == 16 && |low| == |high| == |sums| == 15 && |lo| == |hi| == 8
    requires forall j :: 0 <= j < 8 ==> lo[j] == LowAt(low, high, sums, j) && hi[j] == HighAt(low, high, sums, j)
    ensures Val(R, x) == Val(R, x[..8]) + PHI * Val(R, x[8..]) && Val(R, y) == Val(R, y[..8]) + PHI * Val(R, y[8..])
    ensures Val(R, low) == l0 + PHI * l1 && Val(R, high) == h0 + PHI * h1 && Val(R, sums) == s0 + PHI * s1
    ensures Val(R, lo + hi) == (l0 + h0 + s1 - l1) + PHI * (s0 + h1 + s1 - l0)
  {
    HalvesValue(x);
    HalvesValue(y);
    HalvesValue(low);
    HalvesValue(high);
    HalvesValue(sums);
    l0, l1, h0, h1, s0, s1 := Val(R, low[..8]), Val(R, low[8..]), Val(R, high[..8]), Val(R, high[8..]), Val(R, sums[..8]), Val(R, sums[8..]);
    RecombinedColumns(low, high, sums, lo, hi);
  }

  /** Recombined columns carry the product modulo P. */
  lemma Recombined(x: seq<int>, y: seq<int>, low: seq<int>, high: seq<int>, sums: seq<int>, lo: seq<int>, hi: seq<int>,
                   a0: int, a1: int, b0: int, b1: int)
    requires HalfProducts(x, y, low, high, sums, a0, a1, b0, b1) && |lo| == |hi| == 8
    requires forall j :: 0 <= j < 8 ==> lo[j] == LowAt(low, high, sums, j) && hi[j] == HighAt(low, high, sums, j)
    ensures Cong(Val(R, lo + hi), Val(R, x) * Val(R, y), P)
  {
    var l0, l1, h0, h1, s0, s1 := SplitValues(x, y, low, high, sums, lo, hi);
    RecombinedValue(Val(R, lo + hi), Val(R, x), a0, a1, Val(R, y), b0, b1, l0, l1, h0, h1, s0, s1);
  }

  lemma RecombinedValue(r: int, a: int, a0: int, a1: int, b: int, b0: int, b1: int,
                        l0: int, l1: int, h0: int, h1: int, s0: int, s1: int)
    requires a == a0 + PHI * a1 && b == b0 + PHI * b1
    requires l0 + PHI * l1 == a0 * b0 && h0 + PHI * h1 == a1 * b1 && s0 + PHI * s1 == (a0 + a1) * (b0 + b1)
    requires r == (l0 + h0 + s1 - l1) + PHI * (s0 + h1 + s1 - l0)
    ensures Cong(r, a * b, P)
  {
    GoldenRatio(a, a0, a1, b, b0, b1, a0 * b0, l0, l1, a1 * b1, h0, h1, (a0 + a1) * (b0 + b1), s0, s1);
  }

  lemma {:induction false} ValSum(r: seq<int>, p: seq<int>, q: seq<int>)
    requires |r| == |p| == |q|
    requires forall i :: 0 <= i < |r| ==> r[i] == p[i] + q[i]
    ensures Val(R, r) == Val(R, p) + Val(R, q)
  {
    if |r| > 0 {
      var n := |r| - 1;
      ValSum(r[..n], p[..n], q[..n]);
      assert (p[n] + q[n]) * Pow(R, n) == p[n] * Pow(R, n) + q[n] * Pow(R, n);
    }
  }

  method FoldHalves(a: seq<I63>) returns (sum: seq<I63>)
    requires Tight(a)
    ensures Bounded(sum, 8, 2 * TIGHT)
    ensures Val(R, sum) == Val(R, a[..8]) + Val(R, a[8..])
  {
    sum := [];
    for i := 0 to 8
      invariant Bounded(sum, i, 2 * TIGHT)
      invariant forall k :: 0 <= k < i ==> sum[k] == a[..8][k] + a[8..][k]
    {
      var t: I63 := a[i] + a[i + 8];
      sum := sum + [t];
    }
    ValSum(sum, a[..8], a[8..]);
  }

  lemma HalvesValue(a: seq<int>)
    requires |a| >= 8
    ensures Val(R, a) == Val(R, a[..8]) + PHI * Val(R, a[8..])
  {
    ValSplit(R, a, 8);
    RadixPowers();
  }

  // ---------------------------------------------------------------- carries

  /** Writing x - c R over x and carrying c moves no value. */
  lemma CarryStep(s: seq<int>, i: nat, carry: int, c: int, v: int)
    requires i < |s| && v == s[i] + carry - c * R
    ensures Val(R, s[i := v]) + c * Pow(R, i + 1) == Val(R, s) + carry * Pow(R, i)
  {
    ValUpdate(R, s, i, v);
    var w := Pow(R, i);
    assert (carry - c * R) * w == carry * w - c * (R * w);
  }

  /** 2^448 = 2^224 + 1 modulo P: a carry out of limb 15 re-enters at limbs 0 and 8. */
  lemma TopFold(s: seq<int>, c: int)
    requires |s| == 16
    ensures Cong(Val(R, s[0 := s[0] + c][8 := s[8] + c]), Val(R, s) + c * Pow(R, 16), P)
  {
    var t := s[0 := s[0] + c];
    ValUpdate(R, s, 0, s[0] + c);
    ValUpdate(R, t, 8, s[8] + c);
    RadixPowers();
    PrimeValue();
    CongIntro(Val(R, t[8 := s[8] + c]), Val(R, s) + c * (PHI * PHI), P, -c);
  }

  /** Balanced carry chain, fold of the top carry into limbs 0 and 8, and one more carry there. */
  method SerialCarry(cols: seq<I63>) returns (r: seq<I63>)
    requires Bounded(cols, 16, 10 * WIDEST)
    ensures Tight(r) && Cong(Val(R, r), Val(R, cols), P)
  {
    r := cols;
    var carry: I63 := 0;
    for i := 0 to 16
      invariant |r| == 16 && -0x1_4000_2000 <= carry <= 0x1_4000_2000
      invariant forall k :: 0 <= k < i ==> -HALF <= r[k] < HALF
      invariant forall k :: i <= k < 16 ==> r[k] == cols[k]
      invariant Val(R, r) + carry * Pow(R, i) == Val(R, cols)
    {
      ghost var before, carried := r, carry;
      var x: I63 := r[i] + carry;
      var t: I63 := x + HALF;
      carry := t / R;
      var shifted: I63 := carry * R;
      var low: I63 := x - shifted;
      r := r[i := low];
      CarryStep(before, i, carried, carry, low);
    }
    ghost var chained := r;
    TopFold(r, carry);
    var r0: I63 := r[0] + carry;
    var r8: I63 := r[8] + carry;
    r := r[0 := r0][8 := r8];
    r := CarryOut(r, 0);
    r := CarryOut(r, 8);
    CongRefl(Val(R, r), P);
    assert Val(R, r) == Val(R, chained[0 := r0][8 := r8]);
  }

  method CarryOut(s: seq<I63>, i: nat) returns (r: seq<I63>)
    requires |s| == 16 && i < 15 && -0x1_5000_0000 <= s[i] <= 0x1_5000_0000 && -HALF <= s[i + 1] < HALF
    ensures |r| == 16 && r == s[i := r[i]][i + 1 := r[i + 1]]
    ensures -HALF <= r[i] < HALF && -TIGHT <= r[i + 1] <= TIGHT
    ensures Val(R, r) == Val(R, s)
  {
    var t: I63 := s[i] + HALF;
    var c: I63 := t / R;
    var shifted: I63 := c * R;
    var low: I63 := s[i] - shifted;
    var next: I63 := s[i + 1] + c;
    r := s[i := low][i + 1 := next];
    CarryStep(s, i, 0, c, low);
    ValUpdate(R, s[i := low], i + 1, next);
  }

  /** `mul`: out = a b mod P; out may alias a or b. */
  method Mul(out: array<int>, a: array<int>, b: array<int>)
    requires out.Length == 16 && Tight(a[..]) && Tight(b[..])
    modifies out
    ensures Tight(out[..])
    ensures Cong(FeVal(out[..]), old(FeVal(a[..])) * old(FeVal(b[..])), P)
  {
    var x: seq<I63>, y: seq<I63> := a[..], b[..];
    var xx := FoldHalves(x);
    var yy := FoldHalves(y);
    var low := ProductColumns(x[..8], y[..8], TIGHT);
    var high := ProductColumns(x[8..], y[8..], TIGHT);
    var sums := ProductColumns(xx, yy, 2 * TIGHT);
    Recombine(out, x, y, low, high, sums);
  }

  /** `sq`: out = a^2 mod P; out may alias a. */
  method Sq(out: array<int>, a: array<int>)
    requires out.Length == 16 && Tight(a[..])
    modifies out
    ensures Tight(out[..])
    ensures Cong(FeVal(out[..]), old(FeVal(a[..])) * old(FeVal(a[..])), P)
  {
    var x: seq<I63> := a[..];
    var xx := FoldHalves(x);
    var low := SquareColumns(x[..8], TIGHT);
    var high := SquareColumns(x[8..], TIGHT);
    var sums := SquareColumns(xx, 2 * TIGHT);
    Recombine(out, x, x, low, high, sums);
  }

  method Recombine(out: array<int>, ghost x: seq<int>, ghost y: seq<int>,
                   low: seq<I63>, high: seq<I63>, sums: seq<I63>)
    requires out.Length == 16 && |x| == |y| == 16
    requires Bounded(low, 15, WIDEST) && Bounded(high, 15, WIDEST) && Bounded(sums, 15, 4 * WIDEST)
    requires Val(R, low) == Val(R, x[..8]) * Val(R, y[..8])
    requires Val(R, high) == Val(R, x[8..]) * Val(R, y[8..])
    requires Val(R, sums) == (Val(R, x[..8]) + Val(R, x[8..])) * (Val(R, y[..8]) + Val(R, y[8..]))
    modifies out
    ensures Tight(out[..]) && Cong(FeVal(out[..]), FeVal(x) * FeVal(y), P)
  {
    var cols := ResultColumns(low, high, sums);
    Recombined(x, y, low, high, sums, cols[..8], cols[8..], Val(R, x[..8]), Val(R, x[8..]), Val(R, y[..8]), Val(R, y[8..]));
    assert cols[..8] + cols[8..] == cols;
    var r := SerialCarry(cols);
    CongTrans(Val(R, r), Val(R, cols), Val(R, x) * Val(R, y), P);
    Store(out, r);
  }

  method Store(out: array<int>, r: seq<int>)
    requires out.Length == |r|
    modifies out
    ensures out[..] == r
  {
    for i := 0 to |r|
      invariant out[..i] == r[..i]
    {
      out[i] := r[i];
    }
    assert out[..] == out[..|r|] && r == r[..|r|];
  }

  // ---------------------------------------------------------------- parallel carry

  lemma {:induction false} ValScaled(p: seq<int>, q: seq<int>, c: seq<int>)
    requires |p| == |q| == |c| && forall i :: 0 <= i < |p| ==> p[i] == q[i] + c[i] * R
    ensures Val(R, p) == Val(R, q) + R * Val(R, c)
  {
    if |p| > 0 {
      var n := |p| - 1;
      ValScaled(p[..n], q[..n], c[..n]);
      assert (q[n] + c[n] * R) * Pow(R, n) == q[n] * Pow(R, n) + R * (c[n] * Pow(R, n));
    }
  }

  lemma RotatedValue(c: seq<int>)
    requires |c| == 16
    ensures Val(R, [c[15]] + c[..15]) == R * Val(R, c) + c[15] - c[15] * (PHI * PHI)
  {
    ValAppend(R, [c[15]], c[..15]);
    ValSnoc(R, [], c[15]);
    assert [] + [c[15]] == [c[15]];
    ValPrefix(R, c, 15);
    assert c[..16] == c;
    TopWeight(c[15], Val(R, c[..15]), Val(R, c));
    assert Pow(R, 1) == R;
  }

  lemma TopWeight(d: int, v: int, w: int)
    requires w == v + d * Pow(R, 15)
    ensures R * w == R * v + d * (PHI * PHI)
  {
    RadixPowers();
    assert R * Pow(R, 15) == Pow(R, 16);
    assert R * (d * Pow(R, 15)) == d * (R * Pow(R, 15));
  }

  /** Limb i receives the carry of limb i - 1, and limb 8 also that of limb 15. */
  function Incoming(c: seq<int>, i: nat): int
    requires |c| == 16 && i < 16
  {
    c[if i == 0 then 15 else i - 1] + (if i == 8 then c[15] else 0)
  }

  lemma IncomingValue(q: seq<int>, c: seq<int>, r: seq<int>)
    requires |q| == |c| == |r| == 16
    requires forall i :: 0 <= i < 16 ==> r[i] == q[i] + Incoming(c, i)
    ensures Val(R, r) == Val(R, q) + Val(R, [c[15]] + c[..15]) + c[15] * Pow(R, 8)
  {
    var plain := r[8 := r[8] - c[15]];
    var rotated := [c[15]] + c[..15];
    forall i | 0 <= i < 16
      ensures plain[i] == q[i] + rotated[i]
    {
      assert rotated[i] == c[if i == 0 then 15 else i - 1];
    }
    ValSum(plain, q, rotated);
    ValUpdate(R, plain, 8, r[8]);
    assert plain[8 := r[8]] == r;
  }

  /** Rotating the carries up by one limb, with the top one also entering limb 8. */
  lemma RotatedCarries(x: seq<int>, q: seq<int>, c: seq<int>, r: seq<int>)
    requires |x| == |q| == |c| == |r| == 16
    requires Val(R, x) == Val(R, q) + R * Val(R, c)
    requires forall i :: 0 <= i < 16 ==> r[i] == q[i] + Incoming(c, i)
    ensures Cong(Val(R, r), Val(R, x), P)
  {
    IncomingValue(q, c, r);
    RotatedValue(c);
    RotatedIdentity(Val(R, r), Val(R, [c[15]] + c[..15]), Val(R, x), Val(R, q), Val(R, c), c[15]);
  }

  lemma RotatedIdentity(r: int, rotated: int, x: int, q: int, c: int, top: int)
    requires r == q + rotated + top * Pow(R, 8)
    requires rotated == R * c + top - top * (PHI * PHI) && x == q + R * c
    ensures Cong(r, x, P)
  {
    RadixPowers();
    PrimeValue();
    CongIntro(r, x, P, -top);
  }

  method BalancedCarries(x: seq<I63>, ghost bound: nat, ghost top: nat) returns (c: seq<I63>, q: seq<I63>)
    requires Bounded(x, 16, bound) && bound <= TIGHT * SMALL && bound + HALF < (top + 1) * R
    ensures Bounded(c, 16, top) && Bounded(q, 16, HALF)
    ensures Val(R, x) == Val(R, q) + R * Val(R, c)
  {
    c, q := [], [];
    for i := 0 to 16
      invariant Bounded(c, i, top)
      invariant forall k :: 0 <= k < i ==> -HALF <= x[k] - c[k] * R < HALF
    {
      var t: I63 := x[i] + HALF;
      var carry: I63 := t / R;
      c := c + [carry];
    }
    for i := 0 to 16
      invariant Bounded(q, i, HALF)
      invariant forall k :: 0 <= k < i ==> x[k] == q[k] + c[k] * R
    {
      var shifted: I63 := c[i] * R;
      var rem: I63 := x[i] - shifted;
      q := q + [rem];
    }
    ValScaled(x, q, c);
  }

  /** One round of simultaneous carries; no carry exceeds `top` in magnitude. */
  method ParallelCarry(x: seq<I63>, ghost bound: nat, ghost top: nat) returns (r: seq<I63>)
    requires Bounded(x, 16, bound) && bound <= TIGHT * SMALL && bound + HALF < (top + 1) * R && top <= HALF
    ensures Bounded(r, 16, HALF + 2 * top) && Cong(Val(R, r), Val(R, x), P)
  {
    var c, q := BalancedCarries(x, bound, top);
    r := [];
    for i := 0 to 16
      invariant Bounded(r, i, HALF + 2 * top)
      invariant forall k :: 0 <= k < i ==> r[k] == q[k] + Incoming(c, k)
    {
      var t: I63 := q[i] + c[if i == 0 then 15 else i - 1];
      if i == 8 {
        t := t + c[15];
      }
      r := r + [t];
    }
    RotatedCarries(x, q, c, r);
  }

  /** `add`: out = a + b mod P. */
  method Add(out: array<int>, a: array<int>, b: array<int>)
    requires out.Length == 16 && Tight(a[..]) && Tight(b[..])
    modifies out
    ensures Tight(out[..])
    ensures Cong(FeVal(out[..]), old(FeVal(a[..])) + old(FeVal(b[..])), P)
  {
    var x: seq<I63>, y: seq<I63>, s: seq<I63> := a[..], b[..], [];
    for i := 0 to 16
      invariant Bounded(s, i, 2 * TIGHT) && forall k :: 0 <= k < i ==> s[k] == x[k] + y[k]
    {
      var t: I63 := x[i] + y[i];
      s := s + [t];
    }
    ValSum(s, x, y);
    var r := ParallelCarry(s, 2 * TIGHT, 1);
    Store(out, r);
  }

  /** `sub`: out = a - b mod P. */
  method Sub(out: array<int>, a: array<int>, b: array<int>)
    requires out.Length == 16 && Tight(a[..]) && Tight(b[..])
    modifies out
    ensures Tight(out[..])
    ensures Cong(FeVal(out[..]), old(FeVal(a[..])) - old(FeVal(b[..])), P)
  {
    var x: seq<I63>, y: seq<I63>, s: seq<I63> := a[..], b[..], [];
    for i := 0 to 16
      invariant Bounded(s, i, 2 * TIGHT) && forall k :: 0 <= k < i ==> x[k] == s[k] + y[k]
    {
      var t: I63 := x[i] - y[i];
      s := s + [t];
    }
    ValSum(x, s, y);
    var r := ParallelCarry(s, 2 * TIGHT, 1);
    Store(out, r);
  }

  lemma {:induction false} ValTimes(p: seq<int>, q: seq<int>, k: int)
    requires |p| == |q| && forall i :: 0 <= i < |p| ==> p[i] == q[i] * k
    ensures Val(R, p) == Val(R, q) * k
  {
    if |p| > 0 {
      var n := |p| - 1;
      ValTimes(p[..n], q[..n], k);
      assert (q[n] * k) * Pow(R, n) == (q[n] * Pow(R, n)) * k;
    }
  }

  lemma ScaledBound(a: int, k: int)
    requires -TIGHT <= a <= TIGHT && -SMALL <= k <= SMALL
    ensures -(TIGHT * SMALL) <= a * k <= TIGHT * SMALL
  {
    if k >= 0 {
      MulMonotone(a, TIGHT, k);
      MulMonotone(-TIGHT, a, k);
    } else {
      MulMonotone(a, TIGHT, -k);
      MulMonotone(-TIGHT, a, -k);
      assert a * -k == -(a * k);
    }
  }

  /** `mul_small`: out = a k mod P for |k| <= 2^16; two rounds make the limbs tight again. */
  method MulSmall(out: array<int>, a: array<int>, k: I63)
    requires out.Length == 16 && Tight(a[..]) && -SMALL <= k <= SMALL
    modifies out
    ensures Tight(out[..])
    ensures Cong(FeVal(out[..]), old(FeVal(a[..])) * k, P)
  {
    var x: seq<I63>, s: seq<I63> := a[..], [];
    for i := 0 to 16
      invariant Bounded(s, i, TIGHT * SMALL) && forall j :: 0 <= j < i ==> s[j] == x[j] * k
    {
      ScaledBound(x[i], k);
      var t: I63 := x[i] * k;
      s := s + [t];
    }
    ValTimes(s, x, k);
    var y := ParallelCarry(s, TIGHT * SMALL, 0x8001);
    var r := ParallelCarry(y, HALF + 2 * 0x8001, 1);
    CongTrans(Val(R, r), Val(R, y), Val(R, s), P);
    Store(out, r);
  }

  /** `carry`: tight limbs for the value of limbs up to 2^28 in magnitude. */
  method Carry(out: array<int>, a: array<int>)
    requires out.Length == 16 && Bounded(a[..], 16, R)
    modifies out
    ensures Tight(out[..])
    ensures Cong(FeVal(out[..]), old(FeVal(a[..])), P)
  {
    var x: seq<I63> := a[..];
    var r := ParallelCarry(x, R, 1);
    Store(out, r);
  }
}
