/** What the two scalar layers share, for any base: rows of a schoolbook product and the split
    of a wide number at bit 446. */
module Folding {
  import opened Arith
  import opened Radix
  import opened Order

  // ---------------------------------------------------------------- schoolbook rows

  lemma RowStep(b: int, h: int, c: seq<int>, j: nat, i: nat)
    requires j < |c|
    ensures h * Val(b, c[..j + 1]) * Pow(b, i)
         == h * Val(b, c[..j]) * Pow(b, i) + (h * c[j]) * Pow(b, i + j)
  {
    ValPrefix(b, c, j);
    PowAdd(b, i, j);
    RowRegroup(h, Val(b, c[..j]), c[j], Pow(b, j), Pow(b, i));
    Substitute(h, Val(b, c[..j + 1]), Val(b, c[..j]) + c[j] * Pow(b, j));
  }

  lemma RowRegroup(h: int, v: int, d: int, w: int, u: int)
    ensures h * (v + d * w) * u == h * v * u + (h * d) * (u * w)
  {
  }

  lemma RowValue(v: int, d: int, w: int, c: int)
    ensures (v + d * w) * c == v * c + d * c * w
  {
  }

  // ---------------------------------------------------------------- splitting at bit 446

  /** One more digit of a right shift: a loses its low bits x, and n lends its low bits y. */
  lemma HighStep(b: int, q: int, v: int, t: int, h: int, low: int, a: int, x: int, y: int, w: int)
    requires q * v == t - low + x * w && q * h == a - x + b * y
    ensures q * (v + h * w) == t + a * w - low + y * (b * w)
  {
    assert q * (h * w) == (q * h) * w;
    assert (a - x + b * y) * w == a * w - x * w + y * (b * w);
  }

  lemma LowPart(b: int, q: int, head: seq<int>, r: int, low: seq<int>, n: nat)
    requires b > 0 && Digits(b, head) && 0 <= r < q && q * Pow(b, |head|) == TWO_446
    requires low == head + [r] + seq(n, _ => 0)
    ensures Val(b, low) == Val(b, head) + r * Pow(b, |head|)
    ensures 0 <= Val(b, low) < TWO_446
  {
    var w, zeros := Pow(b, |head|), seq(n, _ => 0);
    ValAppend(b, head + [r], zeros);
    ValZero(b, zeros);
    ValSnoc(b, head, r);
    ValBounds(b, head);
    TopPart(Val(b, head), r, q, w);
  }

  lemma TopPart(v: int, r: int, q: int, w: int)
    requires 0 <= v < w && 0 <= r < q
    ensures 0 <= v + r * w < q * w
  {
    MulMonotone(r, q - 1, w);
    MulMonotone(0, r, w);
    assert (q - 1) * w == q * w - w;
  }

  /** x split at bit 446, which is bit log2 q of digit k. */
  lemma SplitAt446(b: int, q: int, k: nat, x: seq<int>, low: seq<int>, hi: seq<int>, n: nat)
    requires b > 0 && q > 0 && k < |x| && q * Pow(b, k) == TWO_446 && Digits(b, x)
    requires q * Val(b, hi) == Val(b, x[k..]) - x[k] % q
    requires low == x[..k] + [x[k] % q] + seq(n, _ => 0)
    ensures Val(b, x) >= 0 && Val(b, hi) == Val(b, x) / TWO_446 && Val(b, low) == Val(b, x) % TWO_446
  {
    ValBounds(b, x);
    ValSplit(b, x, k);
    LowPart(b, q, x[..k], x[k] % q, low, n);
    SplitIdentity(Pow(b, k), q, Val(b, x[k..]), x[k] % q, Val(b, hi));
    QuotientUnique(Val(b, x), TWO_446, Val(b, hi), Val(b, low));
  }

  lemma SplitIdentity(w: int, q: int, t: int, r: int, h: int)
    requires q * h == t - r && q * w == TWO_446
    ensures w * t == r * w + TWO_446 * h
  {
    assert w * t == w * r + w * (q * h);
    assert w * (q * h) == (q * w) * h;
  }
}
