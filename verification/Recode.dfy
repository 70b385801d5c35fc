/** Signed radix-16 recoding of a scalar, on 28-bit limbs (7 nibbles each) and on 32-bit words
    (8 nibbles each). */
module Recode {
  import opened Arith
  import opened Radix
  import opened Order
  import opened Subdigits

  /** The 112 digits: in [-8, 7] except the last, which is in [0, 4]. */
  predicate SignedDigits(e: seq<int>) {
    |e| == 112 && (forall i :: 0 <= i < 111 ==> -8 <= e[i] <= 7) && 0 <= e[111] <= 4
  }

  /** Unsigned nibbles of the scalar. */
  method Nibbles(e: array<int>, a: seq<int>, per: nat)
    requires e.Length == 112 && per > 0 && |a| * per == 112 && Digits(Pow(16, per), a)
    modifies e
    ensures Digits(16, e[..]) && Val(16, e[..]) == Val(Pow(16, per), a)
  {
    BelowEnds(16, a, per);
    ghost var done := [];
    for i := 0 to 112
      invariant done == e[..i] && |done| == i && Digits(16, done)
      invariant Val(16, done) == Below(16, a, per, i)
    {
      BelowStep(16, a, per, i);
      var d := SubDigit(16, a, per, i);
      ValSnoc(16, done, d);
      e[i] := d;
      done := done + [d];
      assert e[..i + 1] == done;
    }
    assert e[..112] == e[..];
  }

  /** The balancing pass: digits move into [-8, 7] and a carry of at most 1 moves up. */
  method Balance(e: array<int>)
    requires e.Length == 112 && Digits(16, e[..]) && e[111] <= 3
    modifies e
    ensures SignedDigits(e[..]) && Val(16, e[..]) == old(Val(16, e[..]))
  {
    ghost var start, done := e[..], [];
    var carry := 0;
    for i := 0 to 111
      invariant carry == 0 || carry == 1
      invariant done == e[..i] && |done| == i && forall k :: 0 <= k < i ==> -8 <= done[k] <= 7
      invariant forall k :: i <= k < 112 ==> e[k] == start[k]
      invariant Val(16, done) + carry * Pow(16, i) == Val(16, start[..i])
    {
      var digit := e[i] + carry;
      var c := (digit + 8) / 16;
      ValPrefix(16, start, i);
      FloorStep(16, done, start[i], carry, c, digit - c * 16);
      e[i] := digit - c * 16;
      done := done + [digit - c * 16];
      assert e[..i + 1] == done;
      carry := c;
    }
    ValPrefix(16, start, 111);
    e[111] := e[111] + carry;
    ValSnoc(16, done, e[111]);
    assert e[..] == done + [e[111]] && start[..112] == start;
    TopDigitWeight(start[111], carry, Pow(16, 111));
  }

  lemma TopDigitWeight(d: int, c: int, w: int)
    ensures (d + c) * w == d * w + c * w
  {
  }

  lemma TopNibble(e: seq<int>)
    requires |e| == 112 && Digits(16, e) && Val(16, e) < TWO_446
    ensures e[111] <= 3
  {
    ValPrefix(16, e, 111);
    assert e[..112] == e;
    ValBounds(16, e[..111]);
    NibblePower();
    if e[111] >= 4 {
      MulMonotone(4, e[111], Pow(16, 111));
    }
  }

  lemma NibblePower()
    ensures 4 * Pow(16, 111) == TWO_446
  {
    PowMul(16, 7, 16);
    assert Pow(16, 7) == 0x1000_0000;
    assert Pow(0x1000_0000, 8) == 0x1_00000000_00000000_00000000_00000000_00000000_00000000_00000000;
    assert Pow(16, 112) == 16 * Pow(16, 111);
  }

  /** The OCaml recoding, on 16 limbs of 28 bits. */
  method FromLimbs(e: array<int>, a: seq<int>)
    requires e.Length == 112 && |a| == 16 && Digits(0x1000_0000, a) && Val(0x1000_0000, a) < TWO_446
    modifies e
    ensures SignedDigits(e[..]) && Val(16, e[..]) == Val(0x1000_0000, a)
  {
    assert Pow(16, 7) == 0x1000_0000;
    Nibbles(e, a, 7);
    TopNibble(e[..]);
    Balance(e);
  }

  /** The C recoding, on 14 words of 32 bits. */
  method FromWords(e: array<int>, a: seq<int>)
    requires e.Length == 112 && |a| == 14 && Digits(0x1_0000_0000, a) && Val(0x1_0000_0000, a) < TWO_446
    modifies e
    ensures SignedDigits(e[..]) && Val(16, e[..]) == Val(0x1_0000_0000, a)
  {
    assert Pow(16, 8) == 0x1_0000_0000;
    Nibbles(e, a, 8);
    TopNibble(e[..]);
    Balance(e);
  }
}
