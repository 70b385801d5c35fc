/** Arithmetic modulo the group order on unsigned 28-bit limbs in 63-bit integers. */
module Sc448 {
  import opened Arith
  import opened Radix
  import opened Words
  import opened Order
  import opened Folding
  import LB = LimbBytes

  const LIMB: int := 0x1000_0000
  const WIDE: int := 33

  type I63 = x: int | -0x4000_0000_0000_0000 <= x < 0x4000_0000_0000_0000

  predicate Reduced(a: seq<int>) {
    |a| == 16 && Digits(LIMB, a)
  }

  // ---------------------------------------------------------------- carries

  /** Unsigned carry over the first n limbs; c is the carry the source drops. */
  method Propagate(x: array<int>, n: nat) returns (ghost c: int)
    requires n <= x.Length && forall k :: 0 <= k < n ==> 0 <= x[k] < 0x2000_0000_0000_0000
    modifies x
    ensures Digits(LIMB, x[..n]) && c >= 0
    ensures Val(LIMB, x[..n]) + c * Pow(LIMB, n) == old(Val(LIMB, x[..n]))
    ensures forall k :: n <= k < x.Length ==> x[k] == old(x[k])
  {
    var carry: I63 := 0;
    ghost var done := [];
    for i := 0 to n
      invariant 0 <= carry <= 0x4_0000_0000
      invariant done == x[..i] && |done| == i && Digits(LIMB, done)
      invariant forall k :: i <= k < x.Length ==> x[k] == old(x[k])
      invariant Val(LIMB, done) + carry * Pow(LIMB, i) == old(Val(LIMB, x[..i]))
    {
      var v: I63 := x[i] + carry;
      FloorStep(LIMB, done, x[i], carry, v / LIMB, v % LIMB);
      ValPrefix(LIMB, old(x[..]), i);
      assert old(x[..])[..i] == old(x[..i]) && old(x[..])[..i + 1] == old(x[..i + 1]);
      x[i] := v % LIMB;
      done := done + [v % LIMB];
      assert x[..i + 1] == done;
      carry := v / LIMB;
    }
    c := carry;
  }

  method PropagateAll(x: array<int>) returns (ghost c: int)
    requires forall k :: 0 <= k < x.Length ==> 0 <= x[k] < 0x2000_0000_0000_0000
    modifies x
    ensures Digits(LIMB, x[..]) && c >= 0 && Val(LIMB, x[..]) >= 0
    ensures Val(LIMB, x[..]) + c * Pow(LIMB, x.Length) == old(Val(LIMB, x[..]))
  {
    assert x[..x.Length] == x[..];
    c := Propagate(x, x.Length);
    assert x[..x.Length] == x[..];
    ValBounds(LIMB, x[..]);
  }

  /** x += h c 2^(28 i), column by column and without carries. */
  method AddRow(x: array<int>, i: nat, h: I63, c: seq<int>)
    requires i + |c| <= x.Length && 0 <= h < LIMB && Digits(LIMB, c)
    requires forall k :: 0 <= k < x.Length ==> 0 <= x[k] < 0x2000_0000_0000_0000
    modifies x
    ensures forall k :: 0 <= k < x.Length ==>
      old(x[k]) <= x[k] <= old(x[k]) + (if i <= k < i + |c| then LIMB * LIMB else 0)
    ensures Val(LIMB, x[..]) == old(Val(LIMB, x[..])) + h * Val(LIMB, c) * Pow(LIMB, i)
  {
    for j := 0 to |c|
      invariant forall k :: 0 <= k < x.Length ==>
        old(x[k]) <= x[k] <= old(x[k]) + (if i <= k < i + j then LIMB * LIMB else 0)
      invariant forall k :: i + j <= k < x.Length ==> x[k] == old(x[k])
      invariant Val(LIMB, x[..]) == old(Val(LIMB, x[..])) + h * Val(LIMB, c[..j]) * Pow(LIMB, i)
    {
      AddCell(x, i + j, h, c[j]);
      RowStep(LIMB, h, c, j, i);
    }
    assert c[..|c|] == c;
  }

  method AddCell(x: array<int>, k: nat, h: I63, d: I63)
    requires k < x.Length && 0 <= h < LIMB && 0 <= d < LIMB && 0 <= x[k] < 0x2000_0000_0000_0000
    modifies x
    ensures forall l :: 0 <= l < x.Length && l != k ==> x[l] == old(x[l])
    ensures old(x[k]) <= x[k] <= old(x[k]) + LIMB * LIMB
    ensures Val(LIMB, x[..]) == old(Val(LIMB, x[..])) + (h * d) * Pow(LIMB, k)
  {
    MulMonotone(h, LIMB, d);
    MulMonotone(0, h, d);
    var product: I63 := h * d;
    var sum: I63 := x[k] + product;
    ghost var before := x[..];
    ValUpdate(LIMB, before, k, sum);
    x[k] := sum;
    assert x[..] == before[k := sum];
  }

  // ---------------------------------------------------------------- fold

  /** Bits of limb 15 + i shifted down by 26, joined with the low bits of the next limb. */
  method HighLimb(a: int, b: int) returns (h: int)
    requires 0 <= a < LIMB && 0 <= b < LIMB
    ensures 0 <= h < LIMB && 0x400_0000 * h == a - a % 0x400_0000 + LIMB * (b % 0x400_0000)
  {
    assert Pow(2, 2) == 4;
    assert (b * 4) % LIMB == (b % 0x400_0000) * 4;
    LorDisjoint(a / 0x400_0000, b % 0x400_0000, 2);
    h := Lor(a / 0x400_0000, (b * 4) % LIMB);
  }

  /** hi = x div 2^446, as 18 limbs. */
  method HighLimbs(x: array<int>) returns (hi: seq<int>)
    requires x.Length == WIDE && Digits(LIMB, x[..])
    ensures |hi| == 18 && Digits(LIMB, hi)
    ensures 0x400_0000 * Val(LIMB, hi) == Val(LIMB, x[15..]) - x[15] % 0x400_0000
  {
    hi := [];
    ghost var tail := x[15..];
    for i := 0 to 17
      invariant |hi| == i && Digits(LIMB, hi)
      invariant 0x400_0000 * Val(LIMB, hi)
             == Val(LIMB, tail[..i]) - x[15] % 0x400_0000 + (tail[i] % 0x400_0000) * Pow(LIMB, i)
    {
      assert x[15 + i] == x[..][15 + i] && x[16 + i] == x[..][16 + i];
      var h := HighLimb(x[15 + i], x[16 + i]);
      ValSnoc(LIMB, hi, h);
      ValPrefix(LIMB, tail, i);
      HighStep(LIMB, 0x400_0000, Val(LIMB, hi), Val(LIMB, tail[..i]), h, x[15] % 0x400_0000, tail[i],
               tail[i] % 0x400_0000, tail[i + 1] % 0x400_0000, Pow(LIMB, i));
      Substitute(tail[i + 1] % 0x400_0000, Pow(LIMB, i + 1), LIMB * Pow(LIMB, i));
      hi := hi + [h];
    }
    assert x[32] == x[..][32];
    var top := x[32] / 0x400_0000;
    ValSnoc(LIMB, hi, top);
    ValPrefix(LIMB, tail, 17);
    assert tail[..18] == tail;
    HighStep(LIMB, 0x400_0000, Val(LIMB, hi), Val(LIMB, tail[..17]), top, x[15] % 0x400_0000, tail[17],
             tail[17] % 0x400_0000, 0, Pow(LIMB, 17));
    hi := hi + [top];
  }

  lemma LimbPowers()
    ensures Pow(LIMB, 15) * 0x400_0000 == TWO_446
    ensures TWO_446 * 4 == Pow(LIMB, 16)
    ensures Pow(LIMB, 33) == Pow(LIMB, 16) * Pow(LIMB, 16) * LIMB
  {
    assert Pow(LIMB, 8) == 0x1_00000000_00000000_00000000_00000000_00000000_00000000_00000000;
    assert Pow(LIMB, 15) * LIMB == Pow(LIMB, 16);
    PowAdd(LIMB, 16, 16);
    PowAdd(LIMB, 32, 1);
  }

  /** How many of the first i shifted rows of 8 limbs cover column k. */
  function Rows(i: int, k: int, width: int): int {
    var lo, hi := if k >= width then k - width + 1 else 0, if i < k + 1 then i else k + 1;
    if hi > lo then hi - lo else 0
  }

  /** The double loop: x += hi c, each column collecting at most |c| products. */
  method AddProduct(x: array<int>, hi: seq<int>, c: seq<int>)
    requires 1 <= |c| <= 16 && |hi| + |c| <= x.Length && Digits(LIMB, hi) && Digits(LIMB, c) && Digits(LIMB, x[..])
    modifies x
    ensures forall k :: 0 <= k < x.Length ==> 0 <= x[k] <= LIMB + |c| * (LIMB * LIMB)
    ensures Val(LIMB, x[..]) == old(Val(LIMB, x[..])) + Val(LIMB, hi) * Val(LIMB, c)
  {
    for i := 0 to |hi|
      invariant forall k :: 0 <= k < x.Length ==> 0 <= x[k] <= LIMB + Rows(i, k, |c|) * (LIMB * LIMB)
      invariant Val(LIMB, x[..]) == old(Val(LIMB, x[..])) + Val(LIMB, hi[..i]) * Val(LIMB, c)
    {
      ghost var before := x[..];
      AddRow(x, i, hi[i], c);
      ValPrefix(LIMB, hi, i);
      RowValue(Val(LIMB, hi[..i]), hi[i], Pow(LIMB, i), Val(LIMB, c));
    }
    assert hi[..|hi|] == hi;
  }

  /** x += hi FOLD, carried; c is the carry the source drops. */
  method AddFold(x: array<int>, hi: seq<int>) returns (ghost c: int)
    requires x.Length == WIDE && Digits(LIMB, x[..]) && |hi| == 18 && Digits(LIMB, hi)
    modifies x
    ensures Digits(LIMB, x[..]) && c >= 0 && Val(LIMB, x[..]) >= 0
    ensures Val(LIMB, x[..]) + c * Pow(LIMB, x.Length) == old(Val(LIMB, x[..])) + Val(LIMB, hi) * FOLD
  {
    FoldLimbs();
    AddProduct(x, hi, FOLD_LIMBS);
    c := PropagateAll(x);
  }

  /** `fold`: x <- (x mod 2^446) + (x >> 446) FOLD; the last carry is always zero. */
  method Fold(x: array<int>)
    requires x.Length == WIDE && Digits(LIMB, x[..])
    modifies x
    ensures Digits(LIMB, x[..])
    ensures old(Val(LIMB, x[..])) >= 0 && Val(LIMB, x[..]) == FoldValue(old(Val(LIMB, x[..])))
  {
    ghost var start := x[..];
    var hi := HighLimbs(x);
    ClearHigh(x);
    ghost var low := x[..];
    LimbPowers();
    SplitAt446(LIMB, 0x400_0000, 15, start, low, hi, 17);
    ValBounds(LIMB, start);
    LowDigits(start, low);
    ghost var c := AddFold(x, hi);
    FoldFits(Val(LIMB, start), Val(LIMB, x[..]), c, x.Length);
  }

  lemma LowDigits(x: seq<int>, low: seq<int>)
    requires |x| == WIDE && Digits(LIMB, x) && low == x[..15] + [x[15] % 0x400_0000] + seq(17, _ => 0)
    ensures Digits(LIMB, low)
  {
  }

  /** Clearing everything above bit 446. */
  method ClearHigh(x: array<int>)
    requires x.Length == WIDE
    modifies x
    ensures x[..] == old(x[..15] + [x[15] % 0x400_0000]) + seq(17, _ => 0)
  {
    ghost var start := x[..];
    x[15] := x[15] % 0x400_0000;
    for i := 16 to WIDE
      invariant forall k :: 0 <= k < 15 ==> x[k] == start[k]
      invariant x[15] == start[15] % 0x400_0000
      invariant forall k :: 16 <= k < i ==> x[k] == 0
    {
      x[i] := 0;
    }
  }

  lemma WideFold(x: nat, n: nat)
    requires n == 33 && x < Pow(LIMB, n)
    ensures FoldValue(x) < Pow(LIMB, n)
  {
    LimbPowers();
    FoldShrinks(x, 4 * Pow(LIMB, 16) * LIMB);
  }

  lemma FoldFits(x: nat, y: int, c: int, n: nat)
    requires n == 33 && x < Pow(LIMB, n) && 0 <= y && 0 <= c && y + c * Pow(LIMB, n) == FoldValue(x)
    ensures c == 0 && y == FoldValue(x)
  {
    WideFold(x, n);
    PowPositive(LIMB, n);
    NothingHigh(FoldValue(x), y, c, Pow(LIMB, n));
  }

  // ---------------------------------------------------------------- reduction

  lemma KeepWord(x: int, t: int, borrow: int)
    requires borrow == 0 || borrow == 1
    ensures Lor(Land(x, -borrow), Land(t, -1 - -borrow)) == if borrow == 1 then x else t
  {
    LandMask(x);
    LandMask(t);
    LorZero(x);
  }

  /** out = x if borrow = 1, t otherwise, by masks. */
  method Keep(out: array<int>, x: seq<int>, t: seq<int>, borrow: int)
    requires out.Length == |x| == |t| && (borrow == 0 || borrow == 1)
    modifies out
    ensures out[..] == if borrow == 1 then x else t
  {
    var keep := -borrow;
    for i := 0 to |x|
      invariant out[..i] == if borrow == 1 then x[..i] else t[..i]
    {
      KeepWord(x[i], t[i], borrow);
      out[i] := Lor(Land(x[i], keep), Land(t[i], -1 - keep));
    }
    assert out[..] == out[..|x|] && x[..|x|] == x && t[..|x|] == t;
  }

  /** One masked subtraction of m from the low 16 limbs. */
  method SubtractOnce(out: array<int>, low: seq<int>, m: seq<int>)
    requires out.Length == 16 && Reduced(low) && Reduced(m)
    modifies out
    ensures Reduced(out[..])
    ensures Val(LIMB, low) < 2 * Val(LIMB, m) ==>
      Val(LIMB, out[..]) == if Val(LIMB, low) < Val(LIMB, m) then Val(LIMB, low) else Val(LIMB, low) - Val(LIMB, m)
  {
    var t := new int[16];
    var borrow := LB.Subtract(t, low, m);
    Keep(out, low, t[..], borrow);
  }

  /** out = x mod L for x < 2 L held in the low 16 limbs. */
  method FinalReduce(out: array<int>, x: array<int>)
    requires out.Length == 16 && x.Length == WIDE && out != x && Digits(LIMB, x[..])
    requires Val(LIMB, x[..]) < 2 * L
    modifies out
    ensures Reduced(out[..])
    ensures Val(LIMB, out[..]) == if Val(LIMB, x[..]) < L then Val(LIMB, x[..]) else Val(LIMB, x[..]) - L
  {
    OrderLimbs();
    LowLimbs(x[..]);
    var low := x[..16];
    assert low == x[..][..16];
    SubtractOnce(out, low, ORDER_LIMBS);
  }

  /** A number below 2^448 has nothing above limb 15. */
  lemma LowLimbs(x: seq<int>)
    requires |x| == WIDE && Digits(LIMB, x) && Val(LIMB, x) < 2 * L
    ensures Val(LIMB, x[..16]) == Val(LIMB, x)
  {
    ValSplit(LIMB, x, 16);
    ValBounds(LIMB, x[..16]);
    ValBounds(LIMB, x[16..]);
    TwiceOrderFits();
    NothingHigh(Val(LIMB, x), Val(LIMB, x[..16]), Val(LIMB, x[16..]), Pow(LIMB, 16));
  }

  lemma TwiceOrderFits()
    ensures 2 * L < Pow(LIMB, 16)
  {
    OrderShape();
    LimbPowers();
  }

  /** `reduce_wide`: three folds and one subtraction. */
  method ReduceWide(out: array<int>, x: array<int>)
    requires out.Length == 16 && x.Length == WIDE && out != x && Digits(LIMB, x[..])
    requires Val(LIMB, x[..]) < TWO_446 * HIGHEST
    modifies out, x
    ensures Reduced(out[..])
    ensures Val(LIMB, out[..]) == old(Val(LIMB, x[..])) % L
  {
    ValBounds(LIMB, x[..]);
    ThreeFolds(Val(LIMB, x[..]));
    Fold(x);
    Fold(x);
    Fold(x);
    FinalReduce(out, x);
  }

  // ---------------------------------------------------------------- bytes

  lemma PaddedValue(s: seq<int>, n: nat)
    ensures Val(256, s + seq(n, _ => 0)) == Val(256, s)
  {
    ValAppend(256, s, seq(n, _ => 0));
    ValZero(256, seq(n, _ => 0));
  }

  lemma DigestBound(digest: seq<int>)
    requires |digest| == 114 && Digits(256, digest)
    ensures 0 <= Val(256, digest) < TWO_446 * HIGHEST
  {
    ValBounds(256, digest);
    assert Pow(256, 6) == 0x1_0000_0000_0000;
    PowMul(256, 6, 19);
    assert Pow(0x1_0000_0000_0000, 8) == 0x1_000000000000_000000000000_000000000000_000000000000_000000000000_000000000000_000000000000_000000000000;
    assert Pow(0x1_0000_0000_0000, 16) == 0x1_000000000000_000000000000_000000000000_000000000000_000000000000_000000000000_000000000000_000000000000_000000000000_000000000000_000000000000_000000000000_000000000000_000000000000_000000000000_000000000000;
  }

  /** out = (114-byte little-endian integer) mod L. */
  method OfDigest(out: array<int>, digest: Octets)
    requires out.Length == 16 && |digest| == 114
    modifies out
    ensures Reduced(out[..])
    ensures Val(256, digest) >= 0 && Val(LIMB, out[..]) == Val(256, digest) % L
  {
    var padded := digest + [0, 0, 0, 0];
    var x := new int[WIDE];
    LB.Load(x, WIDE, padded);
    PaddedDigest(digest, padded);
    assert x[..WIDE] == x[..];
    DigestBound(digest);
    ReduceWide(out, x);
  }

  lemma PaddedDigest(digest: seq<int>, padded: seq<int>)
    requires |digest| == 114 && padded == digest + [0, 0, 0, 0]
    ensures LB.LowBits(padded, WIDE) == Val(256, digest)
  {
    assert padded[..115] == digest + seq(1, _ => 0);
    PaddedValue(digest, 1);
    assert LB.FirstByte(WIDE) == 115 && padded[115] == 0;
  }

  /** The low 448 bits of a string of at least 56 bytes, unreduced. */
  method OfBytes(out: array<int>, s: Octets)
    requires out.Length == 16 && |s| >= 56
    modifies out
    ensures Reduced(out[..]) && Val(LIMB, out[..]) == Val(256, s[..56])
  {
    LB.Load(out, 16, s);
    assert out[..16] == out[..];
  }

  /** The 57-byte encoding; its last octet is zero. */
  method ToBytes(out: array<int>, off: nat, a: array<int>)
    requires out != a && a.Length == 16 && Reduced(a[..]) && off + 57 <= out.Length
    modifies out
    ensures Val(LIMB, a[..]) >= 0 && out[off..off + 57] == ToDigits(256, Val(LIMB, a[..]), 57)
    ensures forall k :: 0 <= k < out.Length && !(off <= k < off + 57) ==> out[k] == old(out[k])
  {
    LB.Store(out, off, a[..]);
    ghost var low := out[off..off + 56];
    out[off + 56] := 0;
    assert out[off..off + 57] == low + [0];
    ValSnoc(256, low, 0);
    DigitsAreToDigits(256, out[off..off + 57]);
  }

  // ---------------------------------------------------------------- multiply and add

  lemma MulAddBound(a: nat, b: nat, c: nat)
    requires a < Pow(LIMB, 16) && b < Pow(LIMB, 16) && c < Pow(LIMB, 16)
    ensures a * b + c < Pow(LIMB, 16) * Pow(LIMB, 16) + Pow(LIMB, 16)
    ensures Pow(LIMB, 16) * Pow(LIMB, 16) + Pow(LIMB, 16) < TWO_446 * HIGHEST
  {
    LimbPowers();
    MulMonotone(a, Pow(LIMB, 16), b);
    MulMonotone(b, Pow(LIMB, 16), Pow(LIMB, 16));
  }

  /** Adding a shorter number limb by limb. */
  method AddLimbs(x: array<int>, c: seq<int>)
    requires |c| <= x.Length && Digits(LIMB, c)
    requires forall k :: 0 <= k < x.Length ==> 0 <= x[k] < 0x1800_0000_0000_0000
    modifies x
    ensures forall k :: 0 <= k < x.Length ==> 0 <= x[k] < 0x2000_0000_0000_0000
    ensures Val(LIMB, x[..]) == old(Val(LIMB, x[..])) + Val(LIMB, c)
  {
    for i := 0 to |c|
      invariant forall k :: 0 <= k < x.Length ==>
        old(x[k]) <= x[k] <= old(x[k]) + (if k < i then LIMB else 0)
      invariant Val(LIMB, x[..]) == old(Val(LIMB, x[..])) + Val(LIMB, c[..i])
    {
      var sum: I63 := x[i] + c[i];
      ghost var before := x[..];
      ValUpdate(LIMB, before, i, sum);
      ValPrefix(LIMB, c, i);
      x[i] := sum;
      assert x[..] == before[i := sum];
    }
    assert c[..|c|] == c;
  }

  /** out = (a b + c) mod L for any a, b, c below 2^448. */
  method MulAdd(out: array<int>, a: array<int>, b: array<int>, c: array<int>)
    requires out.Length == a.Length == b.Length == c.Length == 16
    requires Reduced(a[..]) && Reduced(b[..]) && Reduced(c[..])
    modifies out
    ensures Reduced(out[..])
    ensures Val(LIMB, out[..]) == old(MulAddMod(Val(LIMB, a[..]), Val(LIMB, b[..]), Val(LIMB, c[..])))
  {
    var x := ProductPlus(a[..], b[..], c[..]);
    ReduceWide(out, x);
  }

  /** a b + c in 33 normalised limbs. */
  method ProductPlus(a: seq<int>, b: seq<int>, c: seq<int>) returns (x: array<int>)
    requires Reduced(a) && Reduced(b) && Reduced(c)
    ensures fresh(x) && x.Length == WIDE && Digits(LIMB, x[..])
    ensures Val(LIMB, x[..]) == Val(LIMB, a) * Val(LIMB, b) + Val(LIMB, c) < TWO_446 * HIGHEST
  {
    x := new int[WIDE](_ => 0);
    ZeroArray(x[..]);
    AddProduct(x, a, b);
    ghost var product := Val(LIMB, x[..]);
    AddLimbs(x, c);
    ghost var total := Val(LIMB, x[..]);
    ghost var carry := PropagateAll(x);
    ValBounds(LIMB, a);
    ValBounds(LIMB, b);
    ValBounds(LIMB, c);
    MulAddBound(Val(LIMB, a), Val(LIMB, b), Val(LIMB, c));
    MulMonotone(0, Val(LIMB, a), Val(LIMB, b));
    WideRoom();
    NothingHigh(total, Val(LIMB, x[..]), carry, Pow(LIMB, WIDE));
  }

  lemma WideRoom()
    ensures TWO_446 * HIGHEST < Pow(LIMB, WIDE)
  {
    LimbPowers();
  }

  lemma ZeroArray(x: seq<int>)
    requires forall i :: 0 <= i < |x| ==> x[i] == 0
    ensures Digits(LIMB, x) && Val(LIMB, x) == 0
  {
    ValZero(LIMB, x);
  }

  /** `d asr 8 land 1` is 1 exactly when the difference of two bytes is negative. */
  method SubByte(x: int, m: int, borrow: int) returns (ghost low: int, next: int)
    requires 0 <= x < 256 && 0 <= m < 256 && (borrow == 0 || borrow == 1)
    ensures 0 <= low < 256 && (next == 0 || next == 1) && x - m - borrow == low - 256 * next
  {
    var d := x - m - borrow;
    low := d % 256;
    next := (d / 256) % 2;
  }

  /** The borrow of t - m over equally many bytes: 1 exactly when t < m. */
  method BorrowOf(t: seq<int>, m: seq<int>) returns (borrow: int)
    requires |t| == |m| && Digits(256, t) && Digits(256, m)
    ensures borrow == if Val(256, t) < Val(256, m) then 1 else 0
  {
    borrow := 0;
    ghost var done := [];
    for i := 0 to |t|
      invariant (borrow == 0 || borrow == 1) && |done| == i && Digits(256, done)
      invariant Val(256, done) - borrow * Pow(256, i) == Val(256, t[..i]) - Val(256, m[..i])
    {
      ghost var low;
      var next;
      low, next := SubByte(t[i], m[i], borrow);
      BorrowStep(256, done, t, m, borrow, low, next);
      done := done + [low];
      borrow := next;
    }
    assert t[..|t|] == t && m[..|t|] == m;
    DigitsDecide(256, done, t, m, borrow);
  }

  /** 1 iff the 57-byte little-endian integer at off is below L. */
  method IsCanonical(s: Octets, off: nat) returns (r: int)
    requires off + 57 <= |s|
    ensures r == if Val(256, s[off..off + 57]) < L then 1 else 0
  {
    ByteTable();
    r := BorrowOf(s[off..off + 57], ORDER_BYTES);
  }
}
