/** What pruning does to a scalar: both X448 and Ed448 clear the low two bits and set bit 447. */
module Pruning {
  import opened Arith
  import opened Radix
  import opened Words
  import K = Fe448

  /** 2^445 and 2^447 */
  const TWO_445: int := 0x20000000_00000000_00000000_00000000_00000000_00000000_00000000_00000000_00000000_00000000_00000000_00000000_00000000_00000000
  const TWO_447: int := 0x80000000_00000000_00000000_00000000_00000000_00000000_00000000_00000000_00000000_00000000_00000000_00000000_00000000_00000000

  lemma EvenMask(c: nat, mask: nat)
    requires mask % 2 == 0
    ensures Land(c, mask) == 2 * Land(c / 2, mask / 2)
  {
    var rest := Land(c / 2, mask / 2);
    if c == 0 {
      assert rest == 0;
    } else {
      assert Land(c, mask) == (c % 2) * (mask % 2) + 2 * rest;
    }
  }

  lemma LowBitsCleared(c: int)
    requires 0 <= c < 256
    ensures Land(c, 252) == 4 * (c / 4)
  {
    EvenMask(c, 252);
    EvenMask(c / 2, 126);
    AllOnes(c / 4, 6);
    assert Pow(2, 6) == 64 && c / 2 / 2 == c / 4;
  }

  lemma {:induction false} TopBitSet(c: nat, k: nat)
    requires c < 2 * Pow(2, k)
    ensures Pow(2, k) > 0 && Lor(c, Pow(2, k)) == Pow(2, k) + c % Pow(2, k)
    decreases k
  {
    PowPositive(2, k);
    if k == 0 {
      assert Lor(0, 0) == 0;
    } else if c > 0 {
      PowPositive(2, k - 1);
      TopBitSet(c / 2, k - 1);
      HalfModulo(c, Pow(2, k - 1));
    }
  }

  lemma HighBitSet(c: int)
    requires 0 <= c < 256
    ensures Lor(c, 128) == 128 + c % 128
  {
    assert Pow(2, 7) == 128;
    TopBitSet(c, 7);
  }

  lemma ClearedValue(s: Octets, p: seq<int>, w: int) returns (m: int)
    requires |s| == 56 && p == [Land(s[0], 252)] + s[1..55] + [Lor(s[55], 128)] && w == Pow(256, 55)
    ensures 0 <= m && s[0] + 256 * m < w && Val(256, s) == s[0] + 256 * m + s[55] * w
    ensures Val(256, p) == 4 * (s[0] / 4) + 256 * m + (128 + s[55] % 128) * w
  {
    var mid := s[1..55];
    m := Val(256, mid);
    LowBitsCleared(s[0]);
    HighBitSet(s[55]);
    ThreeParts(s[0], mid, s[55]);
    ThreeParts(4 * (s[0] / 4), mid, 128 + s[55] % 128);
    assert s == [s[0]] + mid + [s[55]];
    BelowTop(s[0], mid, w);
  }

  lemma BelowTop(a: int, mid: Octets, w: int)
    requires 0 <= a < 256 && w == Pow(256, |mid| + 1)
    ensures 0 <= Val(256, mid) && a + 256 * Val(256, mid) < w
  {
    ValBounds(256, mid);
    ValBounds(256, [a] + mid);
    ValCons(256, a, mid);
  }

  lemma ThreeParts(a: int, mid: seq<int>, b: int)
    ensures Val(256, [a] + mid + [b]) == a + 256 * Val(256, mid) + b * Pow(256, |mid| + 1)
  {
    ValSnoc(256, [a] + mid, b);
    ValCons(256, a, mid);
  }

  lemma SplitTop(t: int, q: int, r: int, u: int)
    requires t == 128 * q + r
    ensures t * u == (128 * u) * q + r * u && (128 + r) * (4 * u) == 512 * u + 4 * (r * u)
  {
  }

  lemma LowPart(low: int, r: int, u: int)
    requires 0 <= low < u && 0 <= r < 128
    ensures 0 <= low + r * u < 128 * u
  {
    MulMonotone(r, 127, u);
    MulMonotone(0, r, u);
  }

  lemma ClampedCore(c: int, m: int, t: int, w: int, u: int)
    requires 0 <= c < 256 && 0 <= m && 0 <= t < 256 && w == 4 * u && c + 256 * m < w
    ensures 128 * u > 0
    ensures 4 * (c / 4) + 256 * m + (128 + t % 128) * w == 512 * u + 4 * ((c + 256 * m + t * w) / 4 % (128 * u))
  {
    var low, q, r := c / 4 + 64 * m, t / 128, t % 128;
    SplitTop(t, q, r, u);
    LowPart(low, r, u);
    assert t * w == 4 * (t * u);
    QuotientUnique(c + 256 * m + t * w, 4, low + t * u, c % 4);
    QuotientUnique(low + t * u, 128 * u, q, low + r * u);
  }

  lemma TopWeight(w: int)
    requires w == Pow(256, 55)
    ensures w == 4 * (TWO_445 / 128) && TWO_445 == 128 * (TWO_445 / 128) && TWO_447 == 4 * TWO_445
  {
    K.BytePower();
    assert Pow(256, 56) == 256 * w;
  }

  /** The pruned integer is 2^447 plus the input with bits 0, 1 and 447 cleared. */
  lemma PrunedValue(s: Octets, p: seq<int>)
    requires |s| == 56 && p == [Land(s[0], 252)] + s[1..55] + [Lor(s[55], 128)]
    ensures Val(256, p) == TWO_447 + 4 * (Val(256, s) / 4 % TWO_445)
  {
    var w := Pow(256, 55);
    var m := ClearedValue(s, p, w);
    TopWeight(w);
    PrunedCore(Val(256, s), Val(256, p), s[0], m, s[55], w);
  }

  lemma PrunedCore(v: int, n: int, c: int, m: int, t: int, w: int)
    requires 0 <= c < 256 && 0 <= m && 0 <= t < 256 && c + 256 * m < w && w == 4 * (TWO_445 / 128)
    requires v == c + 256 * m + t * w && n == 4 * (c / 4) + 256 * m + (128 + t % 128) * w
    ensures n == TWO_447 + 4 * (v / 4 % TWO_445)
  {
    ClampedCore(c, m, t, w, TWO_445 / 128);
  }

  lemma ClampedRange(n: int, q: int)
    requires n == TWO_447 + 4 * (q % TWO_445)
    ensures TWO_447 <= n < 2 * TWO_447 && n % 4 == 0
  {
    var r := q % TWO_445;
    assert n == 4 * (TWO_445 + r);
  }
}
