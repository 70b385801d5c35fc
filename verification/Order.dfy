/** The group order L = 2^446 - FOLD and the constant tables both scalar layers keep for it. */
module Order {
  import opened Arith
  import opened Congruence
  import opened Radix
  import opened Prime448

  const FOLD: int := 0x8335dc16_3bb124b6_5129c96f_de933d8d_723a70aa_dc873d6d_54a7bb0d
  const TWO_446: int := 0x40000000_00000000_00000000_00000000_00000000_00000000_00000000_00000000_00000000_00000000_00000000_00000000_00000000_00000000

  ghost predicate IsOrder(n: int) {
    forall m: int {:trigger Prime448.Value(n, m)} :: Prime448.Value(n, m) ==> m == TWO_446 - FOLD
  }

  /** The type has one inhabitant, whose value is stated through the guard of Prime448. */
  type GroupOrder = n: int | n > 0 && IsOrder(n) witness TWO_446 - FOLD

  const ORDER: GroupOrder

  const L: int := ORDER

  lemma OrderValue()
    ensures L == TWO_446 - FOLD
    ensures L == 0x3fffffff_ffffffff_ffffffff_ffffffff_ffffffff_ffffffff_ffffffff_7cca23e9_c44edb49_aed63690_216cc272_8dc58f55_2378c292_ab5844f3
  {
    assert Prime448.Value(ORDER, ORDER);
  }

  lemma OrderShape()
    ensures TWO_446 - FOLD == L && TWO_446 + PHI * 0x100_0000 < 2 * L && L < TWO_446
  {
    OrderValue();
  }

  const ORDER_LIMBS: seq<int> := [
    190334195, 126626090, 93279523, 203892956, 110109036, 77262179, 163860187, 130851390,
    268435455, 268435455, 268435455, 268435455, 268435455, 268435455, 268435455, 67108863]

  const FOLD_LIMBS: seq<int> := [
    78101261, 141809365, 175155932, 64542499, 158326419, 191173276, 104575268, 137584065]

  const ORDER_WORDS: seq<int> := [
    0xab5844f3, 0x2378c292, 0x8dc58f55, 0x216cc272, 0xaed63690, 0xc44edb49, 0x7cca23e9, 0xffffffff,
    0xffffffff, 0xffffffff, 0xffffffff, 0xffffffff, 0xffffffff, 0x3fffffff]

  const FOLD_WORDS: seq<int> := [
    0x54a7bb0d, 0xdc873d6d, 0x723a70aa, 0xde933d8d, 0x5129c96f, 0x3bb124b6, 0x8335dc16]

  const ORDER_BYTES: seq<int> :=
    [0xf3, 0x44, 0x58, 0xab, 0x92, 0xc2, 0x78, 0x23] + [0x55, 0x8f, 0xc5, 0x8d, 0x72, 0xc2, 0x6c, 0x21]
    + [0x90, 0x36, 0xd6, 0xae, 0x49, 0xdb, 0x4e, 0xc4] + [0xe9, 0x23, 0xca, 0x7c, 0xff, 0xff, 0xff, 0xff]
    + [0xff, 0xff, 0xff, 0xff, 0xff, 0xff, 0xff, 0xff] + [0xff, 0xff, 0xff, 0xff, 0xff, 0xff, 0xff, 0xff]
    + [0xff, 0xff, 0xff, 0xff, 0xff, 0xff, 0xff, 0x3f] + [0x00]

  lemma FourDigits(b: int, s: seq<int>, n: nat)
    requires n + 4 <= |s|
    ensures Val(b, s[..n + 4])
         == Val(b, s[..n]) + s[n] * Pow(b, n) + s[n + 1] * Pow(b, n + 1) + s[n + 2] * Pow(b, n + 2) + s[n + 3] * Pow(b, n + 3)
  {
    ValPrefix(b, s, n);
    ValPrefix(b, s, n + 1);
    ValPrefix(b, s, n + 2);
    ValPrefix(b, s, n + 3);
  }

  lemma OrderLimbs()
    ensures Digits(0x1000_0000, ORDER_LIMBS) && Val(0x1000_0000, ORDER_LIMBS) == L
  {
    OrderValue();
    var s := ORDER_LIMBS;
    LowOrderLimbs(s);
    FourDigits(0x1000_0000, s, 8);
    FourDigits(0x1000_0000, s, 12);
    assert Pow(0x1000_0000, 8) == 0x1_00000000_00000000_00000000_00000000_00000000_00000000_00000000;
    assert s[..16] == s;
  }

  lemma LowOrderLimbs(s: seq<int>)
    requires s == ORDER_LIMBS
    ensures Val(0x1000_0000, s[..8]) == 0x7cca23e9_c44edb49_aed63690_216cc272_8dc58f55_2378c292_ab5844f3
  {
    FourDigits(0x1000_0000, s, 0);
    FourDigits(0x1000_0000, s, 4);
    assert s[..0] == [];
  }

  lemma FoldLimbs()
    ensures Digits(0x1000_0000, FOLD_LIMBS) && Val(0x1000_0000, FOLD_LIMBS) == FOLD
  {
    FourDigits(0x1000_0000, FOLD_LIMBS, 0);
    FourDigits(0x1000_0000, FOLD_LIMBS, 4);
    assert FOLD_LIMBS[..8] == FOLD_LIMBS && FOLD_LIMBS[..0] == [];
  }

  lemma OrderWords()
    ensures Digits(0x1_0000_0000, ORDER_WORDS) && Val(0x1_0000_0000, ORDER_WORDS) == L
  {
    OrderValue();
    var s := ORDER_WORDS;
    LowOrderWords(s);
    FourDigits(0x1_0000_0000, s, 7);
    ValPrefix(0x1_0000_0000, s, 11);
    ValPrefix(0x1_0000_0000, s, 12);
    ValPrefix(0x1_0000_0000, s, 13);
    assert Pow(0x1_0000_0000, 7) == 0x1_00000000_00000000_00000000_00000000_00000000_00000000_00000000;
    assert s[..14] == s;
  }

  lemma LowOrderWords(s: seq<int>)
    requires s == ORDER_WORDS
    ensures Val(0x1_0000_0000, s[..7]) == 0x7cca23e9_c44edb49_aed63690_216cc272_8dc58f55_2378c292_ab5844f3
  {
    FourDigits(0x1_0000_0000, s, 0);
    ValPrefix(0x1_0000_0000, s, 4);
    ValPrefix(0x1_0000_0000, s, 5);
    ValPrefix(0x1_0000_0000, s, 6);
    assert s[..0] == [];
  }

  lemma FoldWords()
    ensures Digits(0x1_0000_0000, FOLD_WORDS) && Val(0x1_0000_0000, FOLD_WORDS) == FOLD
  {
    var t := FOLD_WORDS;
    FourDigits(0x1_0000_0000, t, 0);
    ValPrefix(0x1_0000_0000, t, 4);
    ValPrefix(0x1_0000_0000, t, 5);
    ValPrefix(0x1_0000_0000, t, 6);
    assert t[..7] == t && t[..0] == [];
  }

  lemma WordWeight(p: int, q: int, r: int, t: int, w: int)
    ensures p * w + q * (0x100 * w) + r * (0x1_0000 * w) + t * (0x100_0000 * w)
         == (p + 0x100 * (q + 0x100 * (r + 0x100 * t))) * w
  {
  }

  lemma {:induction false} WordsOfBytes(s: seq<int>, w: seq<int>)
    requires |s| == 4 * |w|
    requires forall k :: 0 <= k < |w| ==>
      w[k] == s[4 * k] + 0x100 * (s[4 * k + 1] + 0x100 * (s[4 * k + 2] + 0x100 * s[4 * k + 3]))
    ensures Val(256, s) == Val(0x1_0000_0000, w)
  {
    if |w| > 0 {
      var n := |w| - 1;
      WordsOfBytes(s[..4 * n], w[..n]);
      FourDigits(256, s, 4 * n);
      var v := Pow(256, 4 * n);
      assert Pow(256, 4 * n + 1) == 0x100 * v && Pow(256, 4 * n + 2) == 0x1_0000 * v && Pow(256, 4 * n + 3) == 0x100_0000 * v;
      Substitute(s[4 * n + 1], Pow(256, 4 * n + 1), 0x100 * v);
      Substitute(s[4 * n + 2], Pow(256, 4 * n + 2), 0x1_0000 * v);
      Substitute(s[4 * n + 3], Pow(256, 4 * n + 3), 0x100_0000 * v);
      WordWeight(s[4 * n], s[4 * n + 1], s[4 * n + 2], s[4 * n + 3], v);
      assert s[..4 * n + 4] == s;
      PowMul(256, 4, n);
      assert Pow(256, 4) == 0x1_0000_0000;
      Substitute(w[n], Pow(256, 4 * n), Pow(0x1_0000_0000, n));
    }
  }

  lemma ByteTable()
    ensures |ORDER_BYTES| == 57 && Digits(256, ORDER_BYTES) && Val(256, ORDER_BYTES) == L
  {
    var s := ORDER_BYTES[..56];
    WordsAreBytes(s);
    WordsOfBytes(s, ORDER_WORDS);
    OrderWords();
    ValPrefix(256, ORDER_BYTES, 56);
    assert ORDER_BYTES[..57] == ORDER_BYTES;
  }

  lemma WordsAreBytes(s: seq<int>)
    requires s == ORDER_BYTES[..56]
    ensures forall k :: 0 <= k < 14 ==>
      ORDER_WORDS[k] == s[4 * k] + 0x100 * (s[4 * k + 1] + 0x100 * (s[4 * k + 2] + 0x100 * s[4 * k + 3]))
  {
    forall k | 0 <= k < 14
      ensures ORDER_WORDS[k] == s[4 * k] + 0x100 * (s[4 * k + 1] + 0x100 * (s[4 * k + 2] + 0x100 * s[4 * k + 3]))
    {
      assert k < 4 || k == 4 || k == 5 || k == 6 || k == 7 || k == 8 || k == 9 || k == 10 || k == 11 || k == 12 || k == 13;
      assert k < 4 ==> k == 0 || k == 1 || k == 2 || k == 3;
    }
  }

  // ---------------------------------------------------------------- folding modulo L

  /** (a b + c) mod L, the value both `muladd` functions promise. */
  function MulAddMod(a: int, b: int, c: int): (r: int)
    ensures 0 <= r < L
  {
    (a * b + c) % L
  }

  /** (x mod 2^446) + (x div 2^446) FOLD, the step both scalar layers repeat three times. */
  function FoldValue(x: nat): nat {
    x % TWO_446 + (x / TWO_446) * FOLD
  }

  /** A fold keeps the residue modulo L. */
  lemma FoldResidue(x: nat)
    ensures Cong(FoldValue(x), x, L)
  {
    OrderValue();
    CongIntro(FoldValue(x), x, L, -(x / TWO_446));
  }

  /** A fold maps x < 2^446 w below 2^446 + 2^224 w. */
  lemma FoldShrinks(x: nat, w: nat)
    requires x < TWO_446 * w
    ensures FoldValue(x) < TWO_446 + PHI * w
  {
  }

  /** 2^466 */
  const HIGHEST: int := 0x40000_00000000_00000000_00000000_00000000_00000000_00000000_00000000_00000000_00000000_00000000_00000000_00000000_00000000_00000000

  /** Each fold brings the number close to 2^446: below 2^690, below 2^470, below 2 L. */
  lemma FoldedRange(x: nat)
    requires x < TWO_446 * HIGHEST
    ensures FoldValue(FoldValue(FoldValue(x))) < TWO_446 + PHI * 0x100_0000
  {
    var f := FoldValue(x);
    FoldShrinks(x, HIGHEST);
    FoldShrinks(f, HIGHEST / 0x20000000_00000000_00000000_00000000_00000000_00000000_00000000);
    FoldShrinks(FoldValue(f), 0x100_0000);
  }

  /** A residue below 2 L needs at most one subtraction. */
  lemma OneSubtraction(x: int, y: int)
    requires 0 <= y < 2 * L && Cong(y, x, L)
    ensures x % L == if y < L then y else y - L
  {
    var r := if y < L then y else y - L;
    CongIntro(r, y, L, if y < L then 0 else -1);
    CongTrans(r, y, x, L);
    CongMod(x, L);
    CongSym(x % L, x, L);
    CongTrans(r, x, x % L, L);
    CongSmall(r, x % L, L);
  }

  /** Three folds bring any 912-bit number below 2 L, and one subtraction finishes. */
  lemma ThreeFolds(x: nat)
    requires x < TWO_446 * HIGHEST
    ensures var y := FoldValue(FoldValue(FoldValue(x)));
      y < 2 * L && x % L == if y < L then y else y - L
  {
    var f := FoldValue(x);
    var g := FoldValue(f);
    var y := FoldValue(g);
    FoldedRange(x);
    OrderShape();
    FoldResidue(x);
    FoldResidue(f);
    FoldResidue(g);
    CongTrans(y, g, f, L);
    CongTrans(y, f, x, L);
    OneSubtraction(x, y);
  }
}
