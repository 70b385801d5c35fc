/** Little-endian positional numbers: the value of a sequence of (possibly signed, possibly
    oversized) digits, and how it changes when one digit is written. */
module Radix {
  import opened Arith

  function Pow(b: int, n: nat): int {
    if n == 0 then 1 else b * Pow(b, n - 1)
  }

  lemma PowPositive(b: int, n: nat)
    requires b > 0
    ensures Pow(b, n) > 0
  {
  }

  lemma {:induction false} PowAdd(b: int, m: nat, n: nat)
    ensures Pow(b, m + n) == Pow(b, m) * Pow(b, n)
  {
    if m > 0 {
      PowAdd(b, m - 1, n);
      assert b * (Pow(b, m - 1) * Pow(b, n)) == (b * Pow(b, m - 1)) * Pow(b, n);
    }
  }

  lemma {:induction false} PowMul(b: int, m: nat, n: nat)
    ensures m * n >= 0 && Pow(b, m * n) == Pow(Pow(b, m), n)
  {
    if n > 0 {
      PowMul(b, m, n - 1);
      assert m * n == m + m * (n - 1);
      PowAdd(b, m, m * (n - 1));
    }
  }

  lemma PowMonotone(b: int, m: nat, n: nat)
    requires b > 0 && m <= n
    ensures Pow(b, m) <= Pow(b, n)
    decreases n
  {
    if m < n {
      PowMonotone(b, m, n - 1);
      PowPositive(b, n - 1);
      assert b * Pow(b, n - 1) >= Pow(b, n - 1);
    }
  }

  /** sum of s[i] * b^i */
  function Val(b: int, s: seq<int>): int {
    if |s| == 0 then 0 else Val(b, s[..|s| - 1]) + s[|s| - 1] * Pow(b, |s| - 1)
  }

  predicate Digits(b: int, s: seq<int>) {
    forall i :: 0 <= i < |s| ==> 0 <= s[i] < b
  }

  type Octets = s: seq<int> | Digits(256, s)

  lemma ValPrefix(b: int, s: seq<int>, i: nat)
    requires i < |s|
    ensures Val(b, s[..i + 1]) == Val(b, s[..i]) + s[i] * Pow(b, i)
  {
    assert s[..i + 1][..i] == s[..i];
  }

  lemma ValSnoc(b: int, s: seq<int>, d: int)
    ensures Val(b, s + [d]) == Val(b, s) + d * Pow(b, |s|)
  {
    assert (s + [d])[..|s|] == s;
  }

  lemma {:induction false} ValUpdate(b: int, s: seq<int>, i: nat, v: int)
    requires i < |s|
    ensures Val(b, s[i := v]) == Val(b, s) + (v - s[i]) * Pow(b, i)
  {
    var n := |s| - 1;
    var t := s[i := v];
    if i < n {
      ValUpdate(b, s[..n], i, v);
      assert t[..n] == s[..n][i := v];
    } else {
      assert t[..n] == s[..n];
      assert v * Pow(b, i) == s[i] * Pow(b, i) + (v - s[i]) * Pow(b, i);
    }
  }

  lemma {:induction false} ValAppend(b: int, s: seq<int>, t: seq<int>)
    ensures Val(b, s + t) == Val(b, s) + Pow(b, |s|) * Val(b, t)
  {
    if |t| == 0 {
      assert s + t == s;
    } else {
      var n := |t| - 1;
      ValAppend(b, s, t[..n]);
      assert (s + t)[..|s| + n] == s + t[..n];
      PowAdd(b, |s|, n);
      Distribute(Pow(b, |s|), Val(b, t[..n]), t[n], Pow(b, n));
    }
  }

  lemma ValSplit(b: int, s: seq<int>, i: nat)
    requires i <= |s|
    ensures Val(b, s) == Val(b, s[..i]) + Pow(b, i) * Val(b, s[i..])
  {
    assert s == s[..i] + s[i..];
    ValAppend(b, s[..i], s[i..]);
  }

  lemma {:induction false} ValZero(b: int, s: seq<int>)
    requires forall i :: 0 <= i < |s| ==> s[i] == 0
    ensures Val(b, s) == 0
  {
    if |s| > 0 {
      ValZero(b, s[..|s| - 1]);
    }
  }

  /** Bounds on the digits bound the value. */
  lemma {:induction false} ValBounds(b: int, s: seq<int>)
    requires b > 0 && Digits(b, s)
    ensures 0 <= Val(b, s) < Pow(b, |s|)
  {
    if |s| > 0 {
      var n := |s| - 1;
      ValBounds(b, s[..n]);
      TopBound(b, Val(b, s[..n]), s[n], Pow(b, n));
    }
  }

  lemma TopBound(b: int, v: int, d: int, w: int)
    requires 0 <= d < b && 0 <= v < w
    ensures 0 <= v + d * w < b * w
  {
    MulMonotone(0, d, w);
    MulMonotone(d, b - 1, w);
  }

  /** Digits below the base are determined by the value. */
  lemma {:induction false} ValInjective(b: int, s: seq<int>, t: seq<int>)
    requires b > 0 && Digits(b, s) && Digits(b, t) && |s| == |t|
    requires Val(b, s) == Val(b, t)
    ensures s == t
  {
    if |s| > 0 {
      var n := |s| - 1;
      ValBounds(b, s[..n]);
      ValBounds(b, t[..n]);
      TopDigit(Val(b, s[..n]), s[n], Val(b, t[..n]), t[n], Pow(b, n));
      ValInjective(b, s[..n], t[..n]);
      assert s == s[..n] + [s[n]] && t == t[..n] + [t[n]];
    }
  }

  lemma TopDigit(u: int, p: int, v: int, q: int, w: int)
    requires 0 <= u < w && 0 <= v < w
    requires u + p * w == v + q * w
    ensures u == v && p == q
  {
    assert (p - q) * w == v - u;
    if p > q {
      Scale(p - q, w);
    } else if p < q {
      Scale(q - p, w);
    }
  }

  /** The len low digits of n in base b, least significant first. */
  function ToDigits(b: int, n: int, len: nat): (s: seq<int>)
    requires b > 0
    ensures |s| == len && Digits(b, s)
    decreases len, n
  {
    if len == 0 then [] else [n % b] + ToDigits(b, n / b, len - 1)
  }

  lemma FirstDigit(b: int, n: int, len: nat)
    requires b > 0 && len > 0
    ensures ToDigits(b, n, len)[0] == n % b
  {
  }

  lemma ValCons(b: int, d: int, s: seq<int>)
    ensures Val(b, [d] + s) == d + b * Val(b, s)
  {
    ValAppend(b, [d], s);
    ValSnoc(b, [], d);
    assert [] + [d] == [d];
    assert Pow(b, 1) == b;
  }

  lemma {:induction false} ToDigitsValue(b: int, n: nat, len: nat)
    requires b > 0 && n < Pow(b, len)
    ensures Val(b, ToDigits(b, n, len)) == n
    decreases len
  {
    if len > 0 {
      DivBound(n, b, Pow(b, len - 1));
      ToDigitsValue(b, n / b, len - 1);
      ValCons(b, n % b, ToDigits(b, n / b, len - 1));
    }
  }

  lemma DivBound(n: nat, b: int, w: int)
    requires b > 0 && n < b * w
    ensures 0 <= n / b < w && n == n % b + b * (n / b)
  {
    var q := n / b;
    if q >= w {
      MulMonotone(w, q, b);
    } else if q < 0 {
      MulMonotone(q, -1, b);
    }
  }

  /** The digit sequence of a given length is determined by its value. */
  lemma DigitsAreToDigits(b: int, s: seq<int>)
    requires b > 0 && Digits(b, s)
    ensures Val(b, s) >= 0 && s == ToDigits(b, Val(b, s), |s|)
  {
    ValBounds(b, s);
    ToDigitsValue(b, Val(b, s), |s|);
    ValInjective(b, s, ToDigits(b, Val(b, s), |s|));
  }

  lemma {:induction false} ValMagnitude(b: int, s: seq<int>, bound: int)
    requires b > 1 && forall i :: 0 <= i < |s| ==> -bound <= s[i] <= bound
    ensures -(bound * (Pow(b, |s|) - 1)) <= (b - 1) * Val(b, s) <= bound * (Pow(b, |s|) - 1)
  {
    if |s| > 0 {
      var n := |s| - 1;
      ValMagnitude(b, s[..n], bound);
      PowPositive(b, n);
      MagnitudeStep(b, Val(b, s[..n]), s[n], Pow(b, n), bound);
    }
  }

  lemma MagnitudeStep(b: int, v: int, d: int, w: int, bound: int)
    requires b > 1 && w > 0 && -bound <= d <= bound
    requires -(bound * (w - 1)) <= (b - 1) * v <= bound * (w - 1)
    ensures -(bound * (b * w - 1)) <= (b - 1) * (v + d * w) <= bound * (b * w - 1)
  {
    var e := (b - 1) * w;
    MulMonotone(0, b - 1, w);
    MulMonotone(d, bound, e);
    MulMonotone(-bound, d, e);
    assert (b - 1) * (v + d * w) == (b - 1) * v + d * e;
    assert bound * (b * w - 1) == bound * (w - 1) + bound * e;
  }

  lemma {:induction false} ValAllMax(b: int, s: seq<int>)
    requires forall i :: 0 <= i < |s| ==> s[i] == b - 1
    ensures Val(b, s) == Pow(b, |s|) - 1
  {
    if |s| > 0 {
      ValAllMax(b, s[..|s| - 1]);
      assert (b - 1) * Pow(b, |s| - 1) == b * Pow(b, |s| - 1) - Pow(b, |s| - 1);
    }
  }

  /** The sum of a digit and a carry leaves r and carries q. */
  lemma FloorStep(b: int, s: seq<int>, d: int, carry: int, q: int, r: int)
    requires d + carry == b * q + r
    ensures Val(b, s + [r]) + q * Pow(b, |s| + 1) == Val(b, s) + carry * Pow(b, |s|) + d * Pow(b, |s|)
  {
    ValSnoc(b, s, r);
    FloorIdentity(b, q, r, d, carry, Pow(b, |s|));
    Substitute(q, Pow(b, |s| + 1), b * Pow(b, |s|));
  }

  lemma FloorIdentity(b: int, q: int, r: int, d: int, carry: int, w: int)
    requires d + carry == b * q + r
    ensures r * w + q * (b * w) == carry * w + d * w
  {
    assert (b * q + r) * w == (d + carry) * w;
  }

  /** One step of a subtraction that keeps a digit and passes a borrow on. */
  lemma BorrowStep(b: int, done: seq<int>, x: seq<int>, m: seq<int>, borrow: int, low: int, next: int)
    requires |done| < |x| == |m| && x[|done|] - m[|done|] - borrow == low - b * next
    requires Val(b, done) - borrow * Pow(b, |done|) == Val(b, x[..|done|]) - Val(b, m[..|done|])
    ensures Val(b, done + [low]) - next * Pow(b, |done| + 1) == Val(b, x[..|done| + 1]) - Val(b, m[..|done| + 1])
  {
    var i := |done|;
    ValPrefix(b, x, i);
    ValPrefix(b, m, i);
    ValSnoc(b, done, low);
    BorrowIdentity(b, x[i], m[i], borrow, low, next, Pow(b, i));
    Substitute(next, Pow(b, i + 1), b * Pow(b, i));
  }

  lemma BorrowIdentity(b: int, x: int, m: int, borrow: int, low: int, next: int, w: int)
    requires x - m - borrow == low - b * next
    ensures low * w - next * (b * w) == x * w - m * w - borrow * w
  {
    assert (x - m - borrow) * w == (low - b * next) * w;
  }

  lemma BorrowDecides(v: int, borrow: int, w: int, x: int, m: int)
    requires 0 <= v < w && 0 <= x < w && 0 <= m < w && v - borrow * w == x - m
    requires borrow == 0 || borrow == 1
    ensures borrow == 1 <==> x < m
  {
  }

  /** The borrow left by subtracting all digits decides the comparison. */
  lemma DigitsDecide(b: int, done: seq<int>, x: seq<int>, m: seq<int>, borrow: int)
    requires b > 0 && |done| == |x| == |m| && Digits(b, done) && Digits(b, x) && Digits(b, m)
    requires borrow == 0 || borrow == 1
    requires Val(b, done) - borrow * Pow(b, |x|) == Val(b, x) - Val(b, m)
    ensures borrow == 1 <==> Val(b, x) < Val(b, m)
  {
    ValBounds(b, done);
    ValBounds(b, x);
    ValBounds(b, m);
    BorrowDecides(Val(b, done), borrow, Pow(b, |x|), Val(b, x), Val(b, m));
  }
}
