/** Conversion between little-endian bytes and 28-bit limbs, as both the field and the scalar
    layer do it. `x land (2^k - 1)` is x % 2^k and `x asr k` is x / 2^k (floor). */
module LimbBytes {
  import opened Arith
  import opened Radix
  import opened Words

  const LIMB: int := 0x1000_0000

  function Word(s: seq<int>, p: nat): int
    requires p + 4 <= |s|
  {
    s[p] + 0x100 * s[p + 1] + 0x1_0000 * s[p + 2] + 0x100_0000 * s[p + 3]
  }

  /** Four bytes joined by shifts and ors. */
  method LoadWord(s: Octets, p: nat) returns (w: int)
    requires p + 4 <= |s|
    ensures w == Word(s, p)
  {
    assert Pow(2, 8) == 0x100;
    assert Pow(2, 16) == 0x1_0000;
    assert Pow(2, 24) == 0x100_0000;
    LorDisjoint(s[p], s[p + 1], 8);
    LorDisjoint(s[p] + 0x100 * s[p + 1], s[p + 2], 16);
    LorDisjoint(s[p] + 0x100 * s[p + 1] + 0x1_0000 * s[p + 2], s[p + 3], 24);
    w := Lor(Lor(Lor(s[p], s[p + 1] * 0x100), s[p + 2] * 0x1_0000), s[p + 3] * 0x100_0000);
  }

  /** The byte that holds bit 28 n: limbs come in pairs of seven bytes. */
  function FirstByte(n: nat): nat {
    7 * (n / 2) + 3 * (n % 2)
  }

  /** The low 28 n bits of a little-endian byte string. */
  function LowBits(s: seq<int>, n: nat): int
    requires FirstByte(n) + n % 2 <= |s|
  {
    Val(256, s[..FirstByte(n)]) + (if n % 2 == 1 then (s[FirstByte(n)] % 16) * Pow(256, FirstByte(n)) else 0)
  }

  lemma PairWeight(j: nat)
    ensures Pow(LIMB, 2 * j) == Pow(256, 7 * j)
    ensures Pow(LIMB, 2 * j + 1) == LIMB * Pow(256, 7 * j)
    ensures Pow(256, 7 * j + 3) == 0x100_0000 * Pow(256, 7 * j)
    ensures Pow(256, 7 * j + 7) == LIMB * LIMB * Pow(256, 7 * j)
  {
    PowMul(LIMB, 2, j);
    PowMul(256, 7, j);
    assert Pow(LIMB, 2) == Pow(256, 7) == LIMB * LIMB;
    PowAdd(256, 3, 7 * j);
    PowAdd(256, 7, 7 * j);
    assert Pow(256, 3) == 0x100_0000;
  }

  lemma ThreeBytes(s: seq<int>, k: nat)
    requires k + 3 <= |s|
    ensures Val(256, s[..k + 3])
         == Val(256, s[..k]) + (s[k] + 0x100 * s[k + 1] + 0x1_0000 * s[k + 2]) * Pow(256, k)
  {
    ValPrefix(256, s, k);
    ValPrefix(256, s, k + 1);
    ValPrefix(256, s, k + 2);
  }

  lemma HighBytes(s: seq<int>, j: nat)
    requires 7 * j + 7 <= |s|
    ensures Val(256, s[..7 * j + 7]) == Val(256, s[..7 * j + 3]) + s[7 * j + 3] * (0x100_0000 * Pow(256, 7 * j))
              + (s[7 * j + 4] + 0x100 * s[7 * j + 5] + 0x1_0000 * s[7 * j + 6]) * (0x1_0000_0000 * Pow(256, 7 * j))
  {
    var k := 7 * j;
    PairWeight(j);
    ThreeBytes(s, k + 4);
    ValPrefix(256, s, k + 3);
    assert Pow(256, k + 4) == 256 * Pow(256, k + 3);
    Substitute(s[k + 3], Pow(256, k + 3), 0x100_0000 * Pow(256, k));
    Substitute(s[k + 4] + 0x100 * s[k + 5] + 0x1_0000 * s[k + 6], Pow(256, k + 4), 0x1_0000_0000 * Pow(256, k));
  }

  lemma SpreadLow(limb: int, low: int, nibble: int, w: int)
    requires limb == low + 0x100_0000 * nibble
    ensures limb * w == low * w + nibble * (0x100_0000 * w)
  {
  }

  lemma EvenDigits(s: Octets, p: nat, limb: int)
    requires p + 4 <= |s|
    requires limb == Word(s, p) % LIMB
    ensures limb == s[p] + 0x100 * s[p + 1] + 0x1_0000 * s[p + 2] + 0x100_0000 * (s[p + 3] % 16)
  {
  }

  lemma EvenLimb(s: Octets, j: nat, limb: int)
    requires 7 * j + 4 <= |s|
    requires limb == Word(s, 7 * j) % LIMB
    ensures LowBits(s, 2 * j + 1) == LowBits(s, 2 * j) + limb * Pow(LIMB, 2 * j)
  {
    var k := 7 * j;
    EvenDigits(s, k, limb);
    var low := s[k] + 0x100 * s[k + 1] + 0x1_0000 * s[k + 2];
    var nibble, v := s[k + 3] % 16, Pow(256, k);
    PairWeight(j);
    Substitute(limb, Pow(LIMB, 2 * j), v);
    Substitute(nibble, Pow(256, k + 3), 0x100_0000 * v);
    ThreeBytes(s, k);
    SpreadLow(limb, low, nibble, v);
  }

  lemma SpreadHigh(limb: int, nibble: int, byte: int, high: int, v: int)
    requires 16 * limb + nibble == byte + 0x100 * high
    ensures nibble * (0x100_0000 * v) + limb * (LIMB * v) == byte * (0x100_0000 * v) + high * (0x1_0000_0000 * v)
  {
    assert (16 * limb + nibble) * v == (byte + 0x100 * high) * v;
  }

  lemma OddDigits(s: Octets, p: nat, limb: int)
    requires p + 4 <= |s|
    requires limb == Word(s, p) / 16 % LIMB
    ensures 16 * limb + s[p] % 16 == s[p] + 0x100 * (s[p + 1] + 0x100 * s[p + 2] + 0x1_0000 * s[p + 3])
  {
  }

  lemma OddLimb(s: Octets, j: nat, limb: int)
    requires 7 * j + 7 <= |s|
    requires limb == Word(s, 7 * j + 3) / 16 % LIMB
    ensures LowBits(s, 2 * j + 2) == LowBits(s, 2 * j + 1) + limb * Pow(LIMB, 2 * j + 1)
  {
    var k := 7 * j;
    OddDigits(s, k + 3, limb);
    var high := s[k + 4] + 0x100 * s[k + 5] + 0x1_0000 * s[k + 6];
    var nibble, v := s[k + 3] % 16, Pow(256, k);
    PairWeight(j);
    var w3, wl := nibble * Pow(256, k + 3), limb * Pow(LIMB, 2 * j + 1);
    Substitute(limb, Pow(LIMB, 2 * j + 1), LIMB * v);
    Substitute(nibble, Pow(256, k + 3), 0x100_0000 * v);
    HighBytes(s, j);
    SpreadHigh(limb, nibble, s[k + 3], high, v);
  }

  /** Limb i starts at bit 28 i, which is bit 0 or bit 4 of its first byte. */
  function LimbAt(s: Octets, i: nat): (limb: int)
    requires FirstByte(i) + 4 <= |s|
    ensures 0 <= limb < LIMB
  {
    Word(s, FirstByte(i)) / (if i % 2 == 0 then 1 else 16) % LIMB
  }

  lemma LimbStep(s: Octets, i: nat)
    requires FirstByte(i) + 4 <= |s|
    ensures LowBits(s, i + 1) == LowBits(s, i) + LimbAt(s, i) * Pow(LIMB, i)
  {
    if i % 2 == 0 {
      EvenLimb(s, i / 2, LimbAt(s, i));
    } else {
      OddLimb(s, i / 2, LimbAt(s, i));
    }
  }

  lemma BitPosition(i: nat)
    ensures 28 * i / 8 == FirstByte(i) && 28 * i % 8 == 4 * (i % 2)
  {
    assert i == 2 * (i / 2) + i % 2;
  }

  method Load(x: array<int>, n: nat, s: Octets)
    requires x.Length >= n > 0 && FirstByte(n - 1) + 4 <= |s|
    modifies x
    ensures Digits(LIMB, x[..n])
    ensures Val(LIMB, x[..n]) == LowBits(s, n)
    ensures forall k :: n <= k < x.Length ==> x[k] == old(x[k])
  {
    for i := 0 to n
      invariant Digits(LIMB, x[..i])
      invariant Val(LIMB, x[..i]) == LowBits(s, i)
      invariant forall k :: n <= k < x.Length ==> x[k] == old(x[k])
    {
      var bit := 28 * i;
      var byte := bit / 8;
      BitPosition(i);
      var word := LoadWord(s, byte);
      ghost var before := x[..i];
      x[i] := word / (if bit % 8 == 0 then 1 else 16) % LIMB;
      LimbStep(s, i);
      assert x[..i + 1] == before + [x[i]];
      ValSnoc(LIMB, before, x[i]);
    }
  }

  // ---------------------------------------------------------------- limbs to bytes

  lemma SplitByte(acc: int, w: int)
    ensures acc * w == (acc % 256) * w + (acc / 256) * (256 * w)
  {
    var q, r := acc / 256, acc % 256;
    assert acc == 256 * q + r;
    assert (256 * q + r) * w == r * w + q * (256 * w);
  }

  lemma BitWeight(i: nat, k: nat, bits: nat)
    requires bits + 8 * k == 28 * i
    ensures Pow(2, bits) * Pow(256, k) == Pow(LIMB, i)
  {
    assert Pow(2, 8) == 256;
    LimbPower();
    PowMul(2, 8, k);
    PowMul(2, 28, i);
    PowAdd(2, bits, 8 * k);
  }

  lemma LimbPower()
    ensures Pow(2, 28) == LIMB
  {
    assert Pow(2, 7) == 128;
    PowMul(2, 7, 4);
    assert Pow(128, 4) == LIMB;
  }

  lemma JoinBound(acc: int, limb: int, bits: nat)
    requires 0 <= acc < Pow(2, bits) && 0 <= limb < LIMB
    ensures 0 <= acc + limb * Pow(2, bits) < Pow(2, bits + 28)
  {
    PowAdd(2, bits, 28);
    LimbPower();
    MulMonotone(limb, LIMB - 1, Pow(2, bits));
    MulMonotone(0, limb, Pow(2, bits));
  }

  lemma JoinValue(acc: int, limb: int, i: nat, k: nat, bits: nat)
    requires bits + 8 * k == 28 * i
    ensures (acc + limb * Pow(2, bits)) * Pow(256, k) == acc * Pow(256, k) + limb * Pow(LIMB, i)
  {
    BitWeight(i, k, bits);
    Regroup(acc, limb, Pow(2, bits), Pow(256, k));
    Substitute(limb, Pow(2, bits) * Pow(256, k), Pow(LIMB, i));
  }

  lemma Regroup(acc: int, limb: int, p: int, w: int)
    ensures (acc + limb * p) * w == acc * w + limb * (p * w)
  {
  }

  /** Moving the low byte of the accumulator to the output. */
  lemma EmitByte(out: seq<int>, acc: int, bits: nat)
    requires bits >= 8 && 0 <= acc < Pow(2, bits)
    ensures 0 <= acc / 256 < Pow(2, bits - 8)
    ensures Val(256, out + [acc % 256]) + (acc / 256) * Pow(256, |out| + 1) == Val(256, out) + acc * Pow(256, |out|)
  {
    PowAdd(2, 8, bits - 8);
    assert Pow(2, 8) == 256;
    ValSnoc(256, out, acc % 256);
    SplitByte(acc, Pow(256, |out|));
  }

  /** Sixteen limbs written as 56 bytes through a bit accumulator. */
  method Store(out: array<int>, off: nat, u: seq<int>)
    requires |u| == 16 && Digits(LIMB, u) && off + 56 <= out.Length
    modifies out
    ensures Digits(256, out[off..off + 56]) && Val(256, out[off..off + 56]) == Val(LIMB, u)
    ensures forall k :: 0 <= k < out.Length && !(off <= k < off + 56) ==> out[k] == old(out[k])
  {
    var acc, bits, pos := 0, 0, off;
    for i := 0 to 16
      invariant off <= pos <= off + 56 && bits + 8 * (pos - off) == 28 * i && 0 <= bits < 8
      invariant 0 <= acc < Pow(2, bits)
      invariant Digits(256, out[off..pos])
      invariant Val(256, out[off..pos]) + acc * Pow(256, pos - off) == Val(LIMB, u[..i])
      invariant forall k :: 0 <= k < out.Length && !(off <= k < off + 56) ==> out[k] == old(out[k])
    {
      JoinBound(acc, u[i], bits);
      JoinValue(acc, u[i], i, pos - off, bits);
      LorDisjoint(acc, u[i], bits);
      ValPrefix(LIMB, u, i);
      acc := Lor(acc, u[i] * Pow(2, bits));
      bits := bits + 28;
      acc, bits, pos := Flush(out, off, acc, bits, pos);
    }
    assert u[..16] == u;
  }

  /** The inner loop of `Store`: whole bytes leave the accumulator. */
  method Flush(out: array<int>, ghost off: nat, acc0: int, bits0: nat, pos0: nat)
    returns (acc: int, bits: nat, pos: nat)
    requires off <= pos0 && pos0 + bits0 / 8 <= off + 56 <= out.Length && 0 <= acc0 < Pow(2, bits0)
    requires Digits(256, out[off..pos0])
    modifies out
    ensures pos == pos0 + bits0 / 8 && bits == bits0 % 8 && 0 <= acc < Pow(2, bits)
    ensures Digits(256, out[off..pos])
    ensures Val(256, out[off..pos]) + acc * Pow(256, pos - off)
         == old(Val(256, out[off..pos0])) + acc0 * Pow(256, pos0 - off)
    ensures forall k :: 0 <= k < out.Length && !(off <= k < off + 56) ==> out[k] == old(out[k])
  {
    acc, bits, pos := acc0, bits0, pos0;
    ghost var total := Val(256, out[off..pos0]) + acc0 * Pow(256, pos0 - off);
    ghost var done := out[off..pos0];
    while bits >= 8
      invariant pos0 <= pos <= off + 56 && 8 * pos + bits == 8 * pos0 + bits0
      invariant 0 <= acc < Pow(2, bits)
      invariant done == out[off..pos] && |done| == pos - off && Digits(256, done)
      invariant Val(256, done) + acc * Pow(256, |done|) == total
      invariant forall k :: 0 <= k < out.Length && !(off <= k < off + 56) ==> out[k] == old(out[k])
    {
      EmitByte(done, acc, bits);
      out[pos] := acc % 256;
      done := done + [acc % 256];
      assert out[off..pos + 1] == done;
      acc := acc / 256;
      bits := bits - 8;
      pos := pos + 1;
    }
  }

  // ---------------------------------------------------------------- carries and borrows

  method SubLimb(x: int, m: int, borrow: int) returns (low: int, next: int)
    requires 0 <= x < LIMB && 0 <= m < LIMB && (borrow == 0 || borrow == 1)
    ensures 0 <= low < LIMB && (next == 0 || next == 1) && x - m - borrow == low - LIMB * next
  {
    var v := x - m - borrow;
    low := v % LIMB;
    next := (v / LIMB) % 2;
  }

  /** w = x - m over 16 limbs; the final borrow tells whether x < m. */
  method Subtract(w: array<int>, x: seq<int>, m: seq<int>) returns (borrow: int)
    requires w.Length == |x| == |m| == 16 && Digits(LIMB, x) && Digits(LIMB, m)
    modifies w
    ensures Digits(LIMB, w[..]) && (borrow == 0 || borrow == 1)
    ensures Val(LIMB, w[..]) - borrow * Pow(LIMB, |x|) == Val(LIMB, x) - Val(LIMB, m)
    ensures borrow == 1 <==> Val(LIMB, x) < Val(LIMB, m)
  {
    borrow := 0;
    ghost var done := [];
    for i := 0 to |x|
      invariant (borrow == 0 || borrow == 1) && done == w[..i] && |done| == i && Digits(LIMB, done)
      invariant Val(LIMB, done) - borrow * Pow(LIMB, i) == Val(LIMB, x[..i]) - Val(LIMB, m[..i])
    {
      var low, next := SubLimb(x[i], m[i], borrow);
      BorrowStep(LIMB, done, x, m, borrow, low, next);
      w[i] := low;
      done := done + [low];
      assert w[..i + 1] == done;
      borrow := next;
    }
    assert x[..|x|] == x && m[..|x|] == m && w[..|x|] == w[..];
    DigitsDecide(LIMB, w[..], x, m, borrow);
  }
}
