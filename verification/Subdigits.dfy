/** Digits of a number stored in larger limbs: digit i of base b, where a limb of base b^per
    holds `per` of them. */
module Subdigits {
  import opened Arith
  import opened Radix

  /** Digit i of a number whose limbs hold `per` digits each. */
  function SubDigit(b: int, a: seq<int>, per: nat, i: nat): (d: int)
    requires b > 0
    requires per > 0 && i / per < |a|
    ensures 0 <= d < b
  {
    PowPositive(b, i % per);
    a[i / per] / Pow(b, i % per) % b
  }

  lemma Spread(b: int, h: int, d: int, w: int, r: int)
    requires 0 <= d < b && 0 <= r < w
    ensures w * (b * h + d) + r == (b * w) * h + (d * w + r)
    ensures 0 <= d * w + r < b * w
  {
    MulMonotone(d, b - 1, w);
    MulMonotone(0, d, w);
    assert (b - 1) * w == b * w - w;
  }

  lemma NextDigit(b: int, x: int, w: int)
    requires b > 0
    requires w > 0
    ensures x % (b * w) == x % w + (x / w % b) * w
  {
    var q, r := x / w, x % w;
    var h, d := q / b, q % b;
    Spread(b, h, d, w, r);
    QuotientUnique(x, b * w, h, d * w + r);
  }

  /** Value of the first t digits of limb j and everything below. */
  function Prefix(b: int, a: seq<int>, per: nat, j: nat, t: nat): int
    requires b > 0
    requires j <= |a| && (t > 0 ==> j < |a|)
  {
    PowPositive(b, t);
    Val(Pow(b, per), a[..j]) + (if t == 0 then 0 else a[j] % Pow(b, t)) * Pow(Pow(b, per), j)
  }

  lemma DigitWeight(b: int, per: nat, j: nat, t: nat)
    requires b > 0
    ensures j * per >= 0 && Pow(b, j * per + t) == Pow(b, t) * Pow(Pow(b, per), j)
  {
    PowMul(b, per, j);
    assert per * j == j * per;
    PowAdd(b, j * per, t);
  }

  lemma DigitStep(b: int, a: seq<int>, per: nat, j: nat, t: nat, d: int)
    requires b > 0
    requires j < |a| && t < per && Pow(b, t) > 0 && d == a[j] / Pow(b, t) % b
    ensures Prefix(b, a, per, j, t + 1) == Prefix(b, a, per, j, t) + d * (Pow(b, t) * Pow(Pow(b, per), j))
  {
    var w, u := Pow(b, t), Pow(Pow(b, per), j);
    NextDigit(b, a[j], w);
    var low := if t == 0 then 0 else a[j] % w;
    assert Pow(b, t + 1) == b * w;
    assert a[j] % (b * w) == low + d * w;
    SpreadDigit(low, d, w, u);
  }

  /** All the digits of a limb are the limb. */
  lemma WholeLimb(b: int, a: seq<int>, per: nat, j: nat)
    requires b > 0
    requires per > 0 && j < |a| && Digits(Pow(b, per), a)
    ensures Prefix(b, a, per, j, per) == Prefix(b, a, per, j + 1, 0)
  {
    QuotientUnique(a[j], Pow(b, per), 0, a[j]);
    ValPrefix(Pow(b, per), a, j);
  }

  lemma SpreadDigit(low: int, d: int, w: int, u: int)
    ensures (low + d * w) * u == low * u + d * (w * u)
  {
  }

  lemma Advance(b: int, a: seq<int>, per: nat, j: nat, t: nat, d: int, i: nat)
    requires b > 0
    requires j < |a| && t < per && Digits(Pow(b, per), a) && i == j * per + t
    requires Pow(b, t) > 0 && d == a[j] / Pow(b, t) % b
    ensures (if t + 1 == per then Prefix(b, a, per, j + 1, 0) else Prefix(b, a, per, j, t + 1))
         == Prefix(b, a, per, j, t) + d * Pow(b, i)
  {
    DigitStep(b, a, per, j, t, d);
    DigitWeight(b, per, j, t);
    if t + 1 == per {
      WholeLimb(b, a, per, j);
    }
  }

  /** Value of the first i digits of a number. */
  function Below(b: int, a: seq<int>, per: nat, i: nat): int
    requires b > 0
    requires per > 0 && i <= |a| * per
  {
    LimbIndex(i, per, |a|);
    Prefix(b, a, per, i / per, i % per)
  }

  lemma LimbIndex(i: nat, per: nat, n: nat)
    requires per > 0 && i <= n * per
    ensures 0 <= i / per <= n && (i % per > 0 || i < n * per ==> i / per < n)
  {
    var j, t := i / per, i % per;
    if j < 0 {
      MulMonotone(j, -1, per);
    } else if j >= n {
      MulMonotone(n, j, per);
    }
  }

  lemma BelowAt(b: int, a: seq<int>, per: nat, i: nat, j: nat, t: nat)
    requires b > 0
    requires t < per && i == j * per + t && i <= |a| * per
    ensures i / per == j <= |a| && i % per == t && (t > 0 ==> j < |a|)
    ensures Below(b, a, per, i) == Prefix(b, a, per, j, t)
  {
    QuotientUnique(i, per, j, t);
    LimbIndex(i, per, |a|);
  }

  lemma BelowStep(b: int, a: seq<int>, per: nat, i: nat)
    requires b > 0
    requires per > 0 && i < |a| * per && Digits(Pow(b, per), a)
    ensures 0 <= i / per < |a|
    ensures Below(b, a, per, i + 1) == Below(b, a, per, i) + SubDigit(b, a, per, i) * Pow(b, i)
  {
    LimbIndex(i, per, |a|);
    PowPositive(b, i % per);
    StepAt(b, a, per, i, i / per, i % per, SubDigit(b, a, per, i));
  }

  lemma StepAt(b: int, a: seq<int>, per: nat, i: nat, j: nat, t: nat, d: int)
    requires b > 0
    requires t < per && i == j * per + t && i < |a| * per && Digits(Pow(b, per), a)
    requires j < |a| && Pow(b, t) > 0 && d == a[j] / Pow(b, t) % b
    ensures Below(b, a, per, i + 1) == Below(b, a, per, i) + d * Pow(b, i)
  {
    Advance(b, a, per, j, t, d, i);
    BelowAt(b, a, per, i, j, t);
    OneMore(j, per);
    if t + 1 == per {
      BelowAt(b, a, per, i + 1, j + 1, 0);
    } else {
      BelowAt(b, a, per, i + 1, j, t + 1);
    }
  }

  lemma BelowEnds(b: int, a: seq<int>, per: nat)
    requires b > 0
    requires per > 0
    ensures |a| * per >= 0 && Below(b, a, per, 0) == 0 && Below(b, a, per, |a| * per) == Val(Pow(b, per), a)
  {
    MulMonotone(0, |a|, per);
    QuotientUnique(0, per, 0, 0);
    QuotientUnique(|a| * per, per, |a|, 0);
    assert a[..|a|] == a;
  }
}
