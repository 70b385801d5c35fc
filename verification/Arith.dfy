/** Elementary facts about products and quotients, one solver step each. */
module Arith {

  lemma Scale(k: int, w: int)
    requires k >= 1 && w >= 0
    ensures k * w >= w
  {
  }

  lemma MulMonotone(a: int, c: int, k: int)
    requires a <= c && k >= 0
    ensures a * k <= c * k
  {
  }

  lemma Substitute(x: int, y: int, z: int)
    requires y == z
    ensures x * y == x * z
  {
  }

  lemma Distribute(w: int, v: int, d: int, u: int)
    ensures w * (v + d * u) == w * v + d * (w * u)
  {
  }

  lemma NegateProduct(a: int, b: int)
    ensures (-a) * b == -(a * b)
  {
  }

  lemma OneMore(n: int, m: int)
    ensures (n + 1) * m == n * m + m
  {
  }

  lemma ProductBound(a: int, b: int, bound: int)
    requires -bound <= a <= bound && -bound <= b <= bound
    ensures -(bound * bound) <= a * b <= bound * bound
  {
    if b >= 0 {
      MulMonotone(a, bound, b);
      MulMonotone(-bound, a, b);
      MulMonotone(b, bound, bound);
    } else {
      MulMonotone(a, bound, -b);
      MulMonotone(-bound, a, -b);
      MulMonotone(-b, bound, bound);
    }
  }

  /** Division with remainder is unique. */
  lemma QuotientUnique(k: int, w: int, q: int, r: int)
    requires w > 0 && k == w * q + r && 0 <= r < w
    ensures k / w == q && k % w == r
  {
    var p, s := k / w, k % w;
    assert (p - q) * w == r - s;
    if p > q {
      Scale(p - q, w);
    } else if p < q {
      Scale(q - p, w);
    }
  }

  lemma NegateModulo(x: int, m: int)
    requires 0 <= x < m
    ensures (-x) % m == if x == 0 then 0 else m - x
  {
    if x > 0 {
      QuotientUnique(-x, m, -1, m - x);
    } else {
      QuotientUnique(0, m, 0, 0);
    }
  }

  lemma DivTwice(k: nat, w: int)
    requires w > 0
    ensures k / (2 * w) == k / w / 2
  {
    var q, r := k / w, k % w;
    var h, b := q / 2, q % 2;
    assert k == (2 * w) * h + (b * w + r);
    assert 0 <= b * w + r < 2 * w;
    QuotientUnique(k, 2 * w, h, b * w + r);
  }

  lemma TwoLevels(a: int, w: int, h: int, b: int, r: int)
    ensures a * (w * h + b) + r == (a * w) * h + (a * b + r)
  {
  }

  lemma InnerRemainder(a: int, w: int, b: int, r: int)
    requires 0 <= b < w && 0 <= r < a
    ensures 0 <= a * b + r < a * w
  {
    MulMonotone(b, w - 1, a);
    MulMonotone(0, b, a);
  }

  lemma DivideTwice(x: nat, a: int, w: int)
    requires a > 0 && w > 0
    ensures a * w > 0 && x / (a * w) == x / a / w
  {
    var q, r := x / a, x % a;
    InnerRemainder(a, w, q % w, r);
    TwoLevels(a, w, q / w, q % w, r);
    QuotientUnique(x, a * w, q / w, a * (q % w) + r);
  }

  lemma HalfModulo(y: nat, w: int)
    requires w > 0
    ensures y % (2 * w) % 2 == y % 2 && y % (2 * w) / 2 == y / 2 % w
  {
    var q, r := y / 2 / w, y / 2 % w;
    assert y == 2 * (w * q + r) + y % 2;
    assert 2 * (w * q) == (2 * w) * q;
    QuotientUnique(y, 2 * w, q, 2 * r + y % 2);
  }

  /** A number below w has nothing at weight w. */
  lemma NothingHigh(v: int, low: int, high: int, w: int)
    requires w > 0 && v == low + w * high && 0 <= low && 0 <= high && v < w
    ensures high == 0 && v == low
  {
    if high >= 1 {
      Scale(high, w);
    }
  }
}
