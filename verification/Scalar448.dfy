/** The native scalar layer: the same arithmetic modulo L on 32-bit words with 64-bit
    accumulators. Every accumulator is declared U64, so each assignment proves that the sum
    does not wrap; the one subtraction that does wrap is written out. */
module Scalar448 {
  import opened Arith
  import opened Radix
  import opened Words
  import opened Order
  import opened Folding
  import opened Subdigits
  import Sc448

  const WORD: int := 0x1_0000_0000
  const WIDE_WORDS: int := 29

  type U64 = x: int | 0 <= x < 0x1_0000_0000_0000_0000

  predicate Reduced(a: seq<int>) {
    |a| == 14 && Digits(WORD, a)
  }

  // ---------------------------------------------------------------- products and sums

  /** One 64-bit step: (2^32 - 1)^2 + 2 (2^32 - 1) = 2^64 - 1, so nothing is lost. */
  method MulWord(h: int, c: int, x: int, carry: int) returns (low: int, high: int)
    requires 0 <= h < WORD && 0 <= c < WORD && 0 <= x < WORD && 0 <= carry < WORD
    ensures 0 <= low < WORD && 0 <= high < WORD && h * c + x + carry == low + WORD * high
  {
    MulMonotone(h, WORD - 1, c);
    MulMonotone(0, h, c);
    var product: U64 := h * c;
    var t: U64 := product + (x + carry);
    low := t % WORD;
    high := t / WORD;
  }

  lemma MulStep(v: int, low: int, high: int, x: int, carry: int, hc: int, w: int)
    requires hc + x + carry == low + WORD * high
    ensures v + (low - x) * w + high * (WORD * w) == v + carry * w + hc * w
  {
    assert (low + WORD * high) * w == low * w + high * (WORD * w);
    assert (hc + x + carry) * w == hc * w + x * w + carry * w;
    assert (low - x) * w == low * w - x * w;
  }

  /** x[k] takes the low word of h d + x[k] + carry. */
  method MulCell(x: array<int>, k: nat, h: int, d: int, carry: int) returns (high: int)
    requires k < x.Length && Digits(WORD, x[..]) && 0 <= h < WORD && 0 <= d < WORD && 0 <= carry < WORD
    modifies x
    ensures 0 <= high < WORD && 0 <= x[k] < WORD && x[..] == old(x[..])[k := x[k]]
    ensures Val(WORD, x[..]) + high * Pow(WORD, k + 1) == old(Val(WORD, x[..])) + carry * Pow(WORD, k) + (h * d) * Pow(WORD, k)
  {
    ghost var before := x[..];
    var low;
    low, high := MulWord(h, d, x[k], carry);
    ValUpdate(WORD, before, k, low);
    MulStep(Val(WORD, before), low, high, x[k], carry, h * d, Pow(WORD, k));
    x[k] := low;
    assert x[..] == before[k := low];
  }

  /** One row of the schoolbook product: x += h c 2^(32 i), the carry going into a clear word. */
  method MulRow(x: array<int>, i: nat, h: int, c: seq<int>)
    requires i + |c| < x.Length && 0 <= h < WORD && Digits(WORD, c) && Digits(WORD, x[..])
    requires x[i + |c|] == 0
    modifies x
    ensures Digits(WORD, x[..])
    ensures forall k :: i + |c| < k < x.Length ==> x[k] == old(x[k])
    ensures Val(WORD, x[..]) == old(Val(WORD, x[..])) + h * Val(WORD, c) * Pow(WORD, i)
  {
    var carry := 0;
    for j := 0 to |c|
      invariant 0 <= carry < WORD && Digits(WORD, x[..])
      invariant forall k :: i + j <= k < x.Length ==> x[k] == old(x[k])
      invariant Val(WORD, x[..]) + carry * Pow(WORD, i + j)
             == old(Val(WORD, x[..])) + h * Val(WORD, c[..j]) * Pow(WORD, i)
    {
      ghost var before := x[..];
      carry := MulCell(x, i + j, h, c[j], carry);
      assert forall k :: 0 <= k < x.Length && k != i + j ==> x[..][k] == before[k];
      RowStep(WORD, h, c, j, i);
    }
    assert c[..|c|] == c;
    LastCarry(x, i + |c|, carry);
  }

  method LastCarry(x: array<int>, k: nat, carry: int)
    requires k < x.Length && x[k] == 0
    modifies x
    ensures x[..] == old(x[..])[k := carry] && Val(WORD, x[..]) == old(Val(WORD, x[..])) + carry * Pow(WORD, k)
  {
    ValUpdate(WORD, x[..], k, carry);
    ghost var before := x[..];
    x[k] := carry;
    assert x[..] == before[k := carry];
  }

  /** x = a c, row by row into a cleared buffer. */
  method Multiply(x: array<int>, a: seq<int>, c: seq<int>)
    requires |c| > 0 && |a| + |c| <= x.Length && Digits(WORD, a) && Digits(WORD, c)
    requires forall k :: 0 <= k < x.Length ==> x[k] == 0
    modifies x
    ensures Digits(WORD, x[..]) && Val(WORD, x[..]) == Val(WORD, a) * Val(WORD, c)
  {
    ValZero(WORD, x[..]);
    for i := 0 to |a|
      invariant Digits(WORD, x[..])
      invariant forall k :: i + |c| <= k < x.Length ==> x[k] == 0
      invariant Val(WORD, x[..]) == Val(WORD, a[..i]) * Val(WORD, c)
    {
      ValPrefix(WORD, a, i);
      RowValue(Val(WORD, a[..i]), a[i], Pow(WORD, i), Val(WORD, c));
      MulRow(x, i, a[i], c);
    }
    assert a[..|a|] == a;
  }

  /** The accumulator pass x += y over |y| words; the carry comes out. */
  method AddWords(x: array<int>, y: seq<int>) returns (acc: U64)
    requires |y| <= x.Length && Digits(WORD, x[..]) && Digits(WORD, y)
    modifies x
    ensures Digits(WORD, x[..]) && acc <= 1
    ensures forall k :: |y| <= k < x.Length ==> x[k] == old(x[k])
    ensures Val(WORD, x[..|y|]) + acc * Pow(WORD, |y|) == old(Val(WORD, x[..|y|])) + Val(WORD, y)
  {
    acc := 0;
    ghost var start, done := x[..], [];
    for i := 0 to |y|
      invariant acc <= 1 && done == x[..i] && |done| == i && Digits(WORD, done)
      invariant forall k :: i <= k < x.Length ==> x[k] == start[k]
      invariant Val(WORD, done) + acc * Pow(WORD, i) == Val(WORD, start[..i]) + Val(WORD, y[..i])
    {
      ghost var carry := acc;
      acc := acc + (x[i] + y[i]);
      ValPrefix(WORD, start, i);
      ValPrefix(WORD, y, i);
      SumTimes(start[i], y[i], Pow(WORD, i));
      FloorStep(WORD, done, start[i] + y[i], carry, acc / WORD, acc % WORD);
      x[i] := acc % WORD;
      done := done + [acc % WORD];
      assert x[..i + 1] == done;
      acc := acc / WORD;
    }
    assert y[..|y|] == y;
    KeepsDigits(x[..], |y|, start);
  }

  lemma SumTimes(a: int, b: int, w: int)
    ensures (a + b) * w == a * w + b * w
  {
  }

  lemma KeepsDigits(x: seq<int>, n: nat, start: seq<int>)
    requires n <= |x| == |start| && Digits(WORD, x[..n]) && Digits(WORD, start)
    requires forall k :: n <= k < |x| ==> x[k] == start[k]
    ensures Digits(WORD, x)
  {
    forall k | 0 <= k < |x| ensures 0 <= x[k] < WORD {
      if k < n {
        assert x[k] == x[..n][k];
      }
    }
  }

  /** The rest of the accumulator pass: a carry runs up through the words from n on. */
  method CarryWords(x: array<int>, n: nat, carry: U64) returns (acc: U64)
    requires n <= x.Length && Digits(WORD, x[..]) && carry <= 1
    modifies x
    ensures Digits(WORD, x[..]) && acc <= 1
    ensures forall k :: 0 <= k < n ==> x[k] == old(x[k])
    ensures Val(WORD, x[..]) + acc * Pow(WORD, x.Length) == old(Val(WORD, x[..])) + carry * Pow(WORD, n)
  {
    acc := carry;
    ghost var start := x[..];
    for i := n to x.Length
      invariant acc <= 1 && Digits(WORD, x[..])
      invariant forall k :: 0 <= k < n || i <= k < x.Length ==> x[k] == start[k]
      invariant Val(WORD, x[..]) + acc * Pow(WORD, i) == Val(WORD, start) + carry * Pow(WORD, n)
    {
      ghost var before, up := x[..], acc;
      acc := acc + x[i];
      ValUpdate(WORD, before, i, acc % WORD);
      MulStep(Val(WORD, before), acc % WORD, acc / WORD, before[i], up, 0, Pow(WORD, i));
      x[i] := acc % WORD;
      assert x[..] == before[i := acc % WORD];
      acc := acc / WORD;
    }
  }

  // ---------------------------------------------------------------- fold

  lemma WordPowers()
    ensures Pow(WORD, 13) * 0x4000_0000 == TWO_446
    ensures TWO_446 * 4 == Pow(WORD, 14)
    ensures Pow(WORD, 29) == TWO_446 * HIGHEST * 0x1_0000
  {
    assert Pow(WORD, 7) == 0x1_00000000_00000000_00000000_00000000_00000000_00000000_00000000;
    PowAdd(WORD, 7, 7);
    assert Pow(WORD, 14) == WORD * Pow(WORD, 13);
    PowAdd(WORD, 14, 14);
    PowAdd(WORD, 28, 1);
  }

  /** Bits from 30 up of one word joined with the low 30 bits of the next. */
  method HighWord(a: int, b: int) returns (h: int)
    requires 0 <= a < WORD && 0 <= b < WORD
    ensures 0 <= h < WORD && 0x4000_0000 * h == a - a % 0x4000_0000 + WORD * (b % 0x4000_0000)
  {
    assert Pow(2, 2) == 4;
    assert (b * 4) % WORD == (b % 0x4000_0000) * 4;
    LorDisjoint(a / 0x4000_0000, b % 0x4000_0000, 2);
    h := Lor(a / 0x4000_0000, (b * 4) % WORD);
  }

  /** hi = x div 2^446, as 16 words. */
  method HighWords(x: array<int>) returns (hi: seq<int>)
    requires x.Length == WIDE_WORDS && Digits(WORD, x[..])
    ensures |hi| == 16 && Digits(WORD, hi)
    ensures 0x4000_0000 * Val(WORD, hi) == Val(WORD, x[13..]) - x[13] % 0x4000_0000
  {
    hi := [];
    ghost var tail := x[13..];
    for i := 0 to 15
      invariant |hi| == i && Digits(WORD, hi)
      invariant 0x4000_0000 * Val(WORD, hi)
             == Val(WORD, tail[..i]) - x[13] % 0x4000_0000 + (tail[i] % 0x4000_0000) * Pow(WORD, i)
    {
      assert x[13 + i] == x[..][13 + i] && x[14 + i] == x[..][14 + i];
      var h := HighWord(x[13 + i], x[14 + i]);
      ValSnoc(WORD, hi, h);
      ValPrefix(WORD, tail, i);
      HighStep(WORD, 0x4000_0000, Val(WORD, hi), Val(WORD, tail[..i]), h, x[13] % 0x4000_0000, tail[i],
               tail[i] % 0x4000_0000, tail[i + 1] % 0x4000_0000, Pow(WORD, i));
      Substitute(tail[i + 1] % 0x4000_0000, Pow(WORD, i + 1), WORD * Pow(WORD, i));
      hi := hi + [h];
    }
    assert x[28] == x[..][28];
    var top := x[28] / 0x4000_0000;
    ValSnoc(WORD, hi, top);
    ValPrefix(WORD, tail, 15);
    assert tail[..16] == tail;
    HighStep(WORD, 0x4000_0000, Val(WORD, hi), Val(WORD, tail[..15]), top, x[13] % 0x4000_0000, tail[15],
             tail[15] % 0x4000_0000, 0, Pow(WORD, 15));
    hi := hi + [top];
  }

  /** Clearing everything above bit 446. */
  method ClearHigh(x: array<int>)
    requires x.Length == WIDE_WORDS
    modifies x
    ensures x[..] == old(x[..13] + [x[13] % 0x4000_0000]) + seq(15, _ => 0)
  {
    ghost var start := x[..];
    x[13] := x[13] % 0x4000_0000;
    for i := 14 to WIDE_WORDS
      invariant forall k :: 0 <= k < 13 ==> x[k] == start[k]
      invariant x[13] == start[13] % 0x4000_0000
      invariant forall k :: 14 <= k < i ==> x[k] == 0
    {
      x[i] := 0;
    }
  }

  /** `sc448_fold`: x <- (x mod 2^446) + (x >> 446) FOLD, with no carry lost. */
  method Fold(x: array<int>)
    requires x.Length == WIDE_WORDS && Digits(WORD, x[..])
    modifies x
    ensures Digits(WORD, x[..])
    ensures old(Val(WORD, x[..])) >= 0 && Val(WORD, x[..]) == FoldValue(old(Val(WORD, x[..])))
  {
    ghost var start := x[..];
    var hi := HighWords(x);
    ClearHigh(x);
    ghost var low := x[..];
    ghost var acc := AddFold(x, hi);
    WordPowers();
    SplitAt446(WORD, 0x4000_0000, 13, start, low, hi, 15);
    ValBounds(WORD, start);
    FoldFits(Val(WORD, start), Val(WORD, x[..]), acc, x.Length);
  }

  /** x += hi FOLD, through a separate product buffer. */
  method AddFold(x: array<int>, hi: seq<int>) returns (acc: U64)
    requires x.Length == WIDE_WORDS && Digits(WORD, x[..]) && |hi| == 16 && Digits(WORD, hi)
    modifies x
    ensures Digits(WORD, x[..]) && Val(WORD, x[..]) >= 0
    ensures Val(WORD, x[..]) + acc * Pow(WORD, x.Length) == old(Val(WORD, x[..])) + Val(WORD, hi) * FOLD
  {
    FoldWords();
    var prod := new int[WIDE_WORDS](_ => 0);
    Multiply(prod, hi, FOLD_WORDS);
    assert x[..WIDE_WORDS] == x[..];
    acc := AddWords(x, prod[..]);
    assert x[..WIDE_WORDS] == x[..];
    ValBounds(WORD, x[..]);
  }

  lemma WideFold(x: nat, n: nat)
    requires n == 29 && x < Pow(WORD, n)
    ensures FoldValue(x) < Pow(WORD, n)
  {
    WordPowers();
    FoldShrinks(x, HIGHEST * 0x1_0000);
  }

  lemma FoldFits(x: nat, y: int, c: int, n: nat)
    requires n == 29 && x < Pow(WORD, n) && 0 <= y && 0 <= c && y + c * Pow(WORD, n) == FoldValue(x)
    ensures c == 0 && y == FoldValue(x)
  {
    WideFold(x, n);
    PowPositive(WORD, n);
    NothingHigh(FoldValue(x), y, c, Pow(WORD, n));
  }

  // ---------------------------------------------------------------- reduction

  /** A 64-bit difference wraps to 2^64 - something exactly when a borrow is due. */
  method SubWord(x: int, m: int, borrow: int) returns (low: int, next: int)
    requires 0 <= x < WORD && 0 <= m < WORD && (borrow == 0 || borrow == 1)
    ensures 0 <= low < WORD && (next == 0 || next == 1) && x - m - borrow == low - WORD * next
  {
    var d: U64 := (x - m - borrow) % 0x1_0000_0000_0000_0000;
    low := d % WORD;
    next := (d / WORD) % 2;
  }

  /** t = x - m with a running borrow. */
  method Subtract(t: array<int>, x: seq<int>, m: seq<int>) returns (borrow: int)
    requires t.Length == |x| == |m| == 14 && Digits(WORD, x) && Digits(WORD, m)
    modifies t
    ensures Digits(WORD, t[..]) && (borrow == 0 || borrow == 1)
    ensures Val(WORD, t[..]) - borrow * Pow(WORD, |x|) == Val(WORD, x) - Val(WORD, m)
    ensures borrow == 1 <==> Val(WORD, x) < Val(WORD, m)
  {
    borrow := 0;
    ghost var done := [];
    for i := 0 to |x|
      invariant (borrow == 0 || borrow == 1) && done == t[..i] && |done| == i && Digits(WORD, done)
      invariant Val(WORD, done) - borrow * Pow(WORD, i) == Val(WORD, x[..i]) - Val(WORD, m[..i])
    {
      var low, next := SubWord(x[i], m[i], borrow);
      BorrowStep(WORD, done, x, m, borrow, low, next);
      t[i] := low;
      done := done + [low];
      assert t[..i + 1] == done;
      borrow := next;
    }
    assert x[..|x|] == x && m[..|x|] == m && t[..|x|] == t[..];
    DigitsDecide(WORD, t[..], x, m, borrow);
  }

  /** One masked subtraction of m. */
  method SubtractOnce(out: array<int>, low: seq<int>, m: seq<int>)
    requires out.Length == 14 && Reduced(low) && Reduced(m)
    modifies out
    ensures Reduced(out[..])
    ensures Val(WORD, low) < 2 * Val(WORD, m) ==>
      Val(WORD, out[..]) == if Val(WORD, low) < Val(WORD, m) then Val(WORD, low) else Val(WORD, low) - Val(WORD, m)
  {
    var t := new int[14];
    var borrow := Subtract(t, low, m);
    Keep(out, low, t[..], borrow);
  }

  /** out = x mod L for x < 2 L held in the low 14 words. */
  method FinalReduce(out: array<int>, x: array<int>)
    requires out.Length == 14 && x.Length == WIDE_WORDS && out != x && Digits(WORD, x[..])
    requires Val(WORD, x[..]) < 2 * L
    modifies out
    ensures Reduced(out[..])
    ensures Val(WORD, out[..]) == if Val(WORD, x[..]) < L then Val(WORD, x[..]) else Val(WORD, x[..]) - L
  {
    OrderWords();
    LowWords(x[..]);
    var low := x[..14];
    assert low == x[..][..14];
    SubtractOnce(out, low, ORDER_WORDS);
  }

  /** 32-bit masks: 0 - borrow and its complement, taken modulo 2^32. */
  method Keep(out: array<int>, x: seq<int>, t: seq<int>, borrow: int)
    requires out.Length == |x| == |t| && Digits(WORD, x) && Digits(WORD, t) && (borrow == 0 || borrow == 1)
    modifies out
    ensures out[..] == if borrow == 1 then x else t
  {
    var keep := (-borrow) % WORD;
    for i := 0 to |x|
      invariant out[..i] == if borrow == 1 then x[..i] else t[..i]
    {
      KeepWord(x[i], t[i], keep);
      out[i] := Lor(Land(x[i], keep), Land(t[i], WORD - 1 - keep));
    }
    assert out[..] == out[..|x|] && x[..|x|] == x && t[..|x|] == t;
  }

  lemma KeepWord(x: int, t: int, keep: int)
    requires 0 <= x < WORD && 0 <= t < WORD && (keep == 0 || keep == WORD - 1)
    ensures Lor(Land(x, keep), Land(t, WORD - 1 - keep)) == if keep == 0 then t else x
  {
    LandMask(x);
    LandMask(t);
    assert Pow(2, 8) == 0x100;
    PowMul(2, 8, 4);
    assert Pow(0x100, 4) == WORD;
    AllOnes(x, 32);
    AllOnes(t, 32);
    LorZero(x);
  }

  lemma LowWords(x: seq<int>)
    requires |x| == WIDE_WORDS && Digits(WORD, x) && Val(WORD, x) < 2 * L
    ensures Val(WORD, x[..14]) == Val(WORD, x)
  {
    ValSplit(WORD, x, 14);
    ValBounds(WORD, x[..14]);
    ValBounds(WORD, x[14..]);
    TwiceOrderFits();
    NothingHigh(Val(WORD, x), Val(WORD, x[..14]), Val(WORD, x[14..]), Pow(WORD, 14));
  }

  lemma TwiceOrderFits()
    ensures 2 * L < Pow(WORD, 14)
  {
    OrderShape();
    WordPowers();
  }

  /** `sc448_reduce_words`: three folds and one subtraction. */
  method ReduceWords(out: array<int>, x: array<int>)
    requires out.Length == 14 && x.Length == WIDE_WORDS && out != x && Digits(WORD, x[..])
    requires Val(WORD, x[..]) < TWO_446 * HIGHEST
    modifies out, x
    ensures Reduced(out[..]) && Val(WORD, out[..]) == old(Val(WORD, x[..])) % L
  {
    ValBounds(WORD, x[..]);
    ThreeFolds(Val(WORD, x[..]));
    Fold(x);
    Fold(x);
    Fold(x);
    FinalReduce(out, x);
  }

  /** `sc448_muladd`: out = (a b + c) mod L for any a, b, c below 2^448. */
  method MulAdd(out: array<int>, a: array<int>, b: array<int>, c: array<int>)
    requires out.Length == a.Length == b.Length == c.Length == 14
    requires Reduced(a[..]) && Reduced(b[..]) && Reduced(c[..])
    modifies out
    ensures Reduced(out[..])
    ensures Val(WORD, out[..]) == old(MulAddMod(Val(WORD, a[..]), Val(WORD, b[..]), Val(WORD, c[..])))
  {
    var x := ProductPlus(a[..], b[..], c[..]);
    ReduceWords(out, x);
  }

  method ProductPlus(a: seq<int>, b: seq<int>, c: seq<int>) returns (x: array<int>)
    requires Reduced(a) && Reduced(b) && Reduced(c)
    ensures fresh(x) && x.Length == WIDE_WORDS && Digits(WORD, x[..])
    ensures Val(WORD, x[..]) == Val(WORD, a) * Val(WORD, b) + Val(WORD, c) < TWO_446 * HIGHEST
  {
    x := new int[WIDE_WORDS](_ => 0);
    Multiply(x, a, b);
    ghost var product := x[..];
    var acc := AddWords(x, c);
    ghost var middle := x[..];
    acc := CarryWords(x, 14, acc);
    LowSum(product, middle, c);
    ValBounds(WORD, a);
    ValBounds(WORD, b);
    ValBounds(WORD, c);
    ValBounds(WORD, x[..]);
    MulAddBound(Val(WORD, a), Val(WORD, b), Val(WORD, c));
    MulMonotone(0, Val(WORD, a), Val(WORD, b));
    WideRoom();
    NothingHigh(Val(WORD, product) + Val(WORD, c), Val(WORD, x[..]), acc, Pow(WORD, WIDE_WORDS));
  }

  lemma WideRoom()
    ensures TWO_446 * HIGHEST < Pow(WORD, WIDE_WORDS)
  {
    WordPowers();
  }

  lemma LowSum(x: seq<int>, y: seq<int>, c: seq<int>)
    requires |x| == |y| == WIDE_WORDS && forall k :: 14 <= k < WIDE_WORDS ==> x[k] == y[k]
    ensures Val(WORD, y) - Val(WORD, y[..14]) == Val(WORD, x) - Val(WORD, x[..14])
  {
    ValSplit(WORD, x, 14);
    ValSplit(WORD, y, 14);
    assert x[14..] == y[14..];
  }

  lemma MulAddBound(a: nat, b: nat, c: nat)
    requires a < Pow(WORD, 14) && b < Pow(WORD, 14) && c < Pow(WORD, 14)
    ensures a * b + c < Pow(WORD, 14) * Pow(WORD, 14) + Pow(WORD, 14)
    ensures Pow(WORD, 14) * Pow(WORD, 14) + Pow(WORD, 14) < TWO_446 * HIGHEST
  {
    WordPowers();
    MulMonotone(a, Pow(WORD, 14), b);
    MulMonotone(b, Pow(WORD, 14), Pow(WORD, 14));
  }

  // ---------------------------------------------------------------- bytes

  /** Or-ing byte i into word i / 4 of a buffer that holds the first i bytes. */
  lemma JoinBits(x: int, t: nat, d: int)
    requires t < 4 && 0 <= x < Pow(256, t) && 0 <= d < 256
    ensures Lor(x, d * Pow(256, t)) == x + d * Pow(256, t)
    ensures 0 <= x + d * Pow(256, t) < Pow(256, t + 1) <= WORD
  {
    assert Pow(2, 8) == 256;
    PowMul(2, 8, t);
    LorDisjoint(x, d, 8 * t);
    MulMonotone(d, 255, Pow(256, t));
    MulMonotone(0, d, Pow(256, t));
    PowMonotone(256, t + 1, 4);
    assert Pow(256, 4) == WORD;
  }

  lemma JoinByte(x: seq<int>, k: nat, t: nat, d: int, v: int)
    requires k < |x| && v == x[k] + d * Pow(256, t)
    ensures Val(WORD, x[k := v]) == Val(WORD, x) + d * Pow(256, 4 * k + t)
  {
    assert Pow(256, 4) == WORD;
    PowMul(256, 4, k);
    PowAdd(256, 4 * k, t);
    ValUpdate(WORD, x, k, v);
    Regroup(d, Pow(256, t), Pow(WORD, k));
  }

  lemma Regroup(d: int, w: int, u: int)
    ensures (d * w) * u == d * (u * w)
  {
  }

  /** Words from i / 4 + 1 on are clear and word i / 4 has room for byte i. */
  predicate Filled(x: seq<int>, i: nat) {
    && Digits(WORD, x)
    && (forall k :: i / 4 < k < |x| ==> x[k] == 0)
    && (i / 4 < |x| ==> x[i / 4] < Pow(256, i % 4))
  }

  lemma FilledStep(x: seq<int>, i: nat, v: int)
    requires Filled(x, i) && i / 4 < |x| && 0 <= v < Pow(256, i % 4 + 1) <= WORD
    ensures Filled(x[i / 4 := v], i + 1)
  {
    if i % 4 == 3 {
      assert (i + 1) / 4 == i / 4 + 1 && (i + 1) % 4 == 0;
      assert Pow(256, 4) == WORD;
    } else {
      assert (i + 1) / 4 == i / 4 && (i + 1) % 4 == i % 4 + 1;
    }
  }

  /** x[i / 4] |= d << 8 (i % 4) */
  method PutByte(x: array<int>, i: nat, d: int)
    requires i / 4 < x.Length && Filled(x[..], i) && 0 <= d < 256
    modifies x
    ensures Filled(x[..], i + 1) && Val(WORD, x[..]) == old(Val(WORD, x[..])) + d * Pow(256, i)
  {
    ghost var before := x[..];
    JoinBits(x[i / 4], i % 4, d);
    var v := Lor(x[i / 4], d * Pow(256, i % 4));
    JoinByte(before, i / 4, i % 4, d, v);
    FilledStep(before, i, v);
    x[i / 4] := v;
    assert x[..] == before[i / 4 := v];
  }

  /** Bytes joined into little-endian words of a cleared buffer. */
  method LoadWords(x: array<int>, s: Octets)
    requires |s| <= 4 * x.Length
    requires forall k :: 0 <= k < x.Length ==> x[k] == 0
    modifies x
    ensures Digits(WORD, x[..]) && Val(WORD, x[..]) == Val(256, s)
  {
    ValZero(WORD, x[..]);
    for i := 0 to |s|
      invariant Filled(x[..], i) && Val(WORD, x[..]) == Val(256, s[..i])
    {
      ValPrefix(256, s, i);
      PutByte(x, i, s[i]);
    }
    assert s[..|s|] == s;
  }

  /** out = (114-byte little-endian integer) mod L. */
  method ReduceDigest(out: array<int>, digest: Octets)
    requires out.Length == 14 && |digest| == 114
    modifies out
    ensures Reduced(out[..])
    ensures Val(256, digest) >= 0 && Val(WORD, out[..]) == Val(256, digest) % L
  {
    var x := new int[WIDE_WORDS](_ => 0);
    LoadWords(x, digest);
    Sc448.DigestBound(digest);
    ReduceWords(out, x);
  }

  /** The low 56 bytes of a string. */
  method FromBytes(out: array<int>, s: Octets)
    requires out.Length == 14 && |s| >= 56
    modifies out
    ensures Reduced(out[..]) && Val(WORD, out[..]) == Val(256, s[..56])
  {
    for i := 0 to 14
      invariant forall k :: 0 <= k < i ==> out[k] == 0
    {
      out[i] := 0;
    }
    LoadWords(out, s[..56]);
  }

  /** Byte i of the words is v[i / 4] >> 8 (i % 4). */
  method LowBytes(a: seq<int>) returns (out: seq<int>)
    requires Reduced(a)
    ensures |out| == 56 && Digits(256, out) && Val(256, out) == Val(WORD, a)
  {
    assert Pow(256, 4) == WORD;
    BelowEnds(256, a, 4);
    out := [];
    for i := 0 to 56
      invariant |out| == i && Digits(256, out) && Val(256, out) == Below(256, a, 4, i)
    {
      BelowStep(256, a, 4, i);
      var d := SubDigit(256, a, 4, i);
      ValSnoc(256, out, d);
      out := out + [d];
    }
  }

  /** The 57-byte encoding; its last octet is zero. */
  method ToBytes(a: seq<int>) returns (out: seq<int>)
    requires Reduced(a)
    ensures Val(WORD, a) >= 0 && out == ToDigits(256, Val(WORD, a), 57)
  {
    var low := LowBytes(a);
    ValSnoc(256, low, 0);
    out := low + [0];
    DigitsAreToDigits(256, out);
  }

  /** A 32-bit difference of bytes wraps exactly when a borrow is due. */
  method SubByte(x: int, m: int, borrow: int) returns (ghost low: int, next: int)
    requires 0 <= x < 256 && 0 <= m < 256 && (borrow == 0 || borrow == 1)
    ensures 0 <= low < 256 && (next == 0 || next == 1) && x - m - borrow == low - 256 * next
  {
    var d := (x - m - borrow) % WORD;
    low := d % 256;
    next := (d / 256) % 2;
  }

  /** The borrow of t - m over equally many bytes: 1 exactly when t < m. */
  method BorrowOf(t: seq<int>, m: seq<int>) returns (borrow: int)
    requires |t| == |m| && Digits(256, t) && Digits(256, m)
    ensures borrow == if Val(256, t) < Val(256, m) then 1 else 0
  {
    borrow := 0;
    ghost var done := [];
    for i := 0 to |t|
      invariant (borrow == 0 || borrow == 1) && |done| == i && Digits(256, done)
      invariant Val(256, done) - borrow * Pow(256, i) == Val(256, t[..i]) - Val(256, m[..i])
    {
      ghost var low;
      var next;
      low, next := SubByte(t[i], m[i], borrow);
      BorrowStep(256, done, t, m, borrow, low, next);
      done := done + [low];
      borrow := next;
    }
    assert t[..|t|] == t && m[..|t|] == m;
    DigitsDecide(256, done, t, m, borrow);
  }

  /** 1 iff the 57-byte little-endian integer is below L. */
  method IsCanonical(s: Octets) returns (r: int)
    requires |s| == 57
    ensures r == if Val(256, s) < L then 1 else 0
  {
    ByteTable();
    r := BorrowOf(s, ORDER_BYTES);
  }

  // ---------------------------------------------------------------- the two layers agree

  /** Hash reduction: the OCaml limbs and the C words encode to the same bytes. */
  method ReduceDigestAgrees(digest: Octets) returns (limbs: seq<int>, words: seq<int>)
    requires |digest| == 114
    ensures limbs == words == ToDigits(256, Val(256, digest) % L, 57)
  {
    var a, w, out := new int[16], new int[14], new int[57];
    Sc448.OfDigest(a, digest);
    Sc448.ToBytes(out, 0, a);
    limbs := out[..];
    assert out[0..57] == limbs;
    ReduceDigest(w, digest);
    words := ToBytes(w[..]);
  }

  method LimbMulAdd(a: Octets, b: Octets, c: Octets) returns (limbs: seq<int>)
    requires |a| >= 56 && |b| >= 56 && |c| >= 56
    ensures limbs == ToDigits(256, MulAddMod(Val(256, a[..56]), Val(256, b[..56]), Val(256, c[..56])), 57)
  {
    var u, v, w, r, out := new int[16], new int[16], new int[16], new int[16], new int[57];
    Sc448.OfBytes(u, a);
    Sc448.OfBytes(v, b);
    Sc448.OfBytes(w, c);
    Sc448.MulAdd(r, u, v, w);
    Sc448.ToBytes(out, 0, r);
    limbs := out[..];
    assert out[0..57] == limbs;
  }

  method WordMulAdd(a: Octets, b: Octets, c: Octets) returns (words: seq<int>)
    requires |a| >= 56 && |b| >= 56 && |c| >= 56
    ensures words == ToDigits(256, MulAddMod(Val(256, a[..56]), Val(256, b[..56]), Val(256, c[..56])), 57)
  {
    var u, v, w, r := new int[14], new int[14], new int[14], new int[14];
    FromBytes(u, a);
    FromBytes(v, b);
    FromBytes(w, c);
    MulAdd(r, u, v, w);
    words := ToBytes(r[..]);
  }

  /** (a b + c) mod L from three 56-byte values: byte-for-byte agreement. */
  method MulAddAgrees(a: Octets, b: Octets, c: Octets) returns (limbs: seq<int>, words: seq<int>)
    requires |a| >= 56 && |b| >= 56 && |c| >= 56
    ensures limbs == words == ToDigits(256, MulAddMod(Val(256, a[..56]), Val(256, b[..56]), Val(256, c[..56])), 57)
  {
    limbs := LimbMulAdd(a, b, c);
    words := WordMulAdd(a, b, c);
  }
}
