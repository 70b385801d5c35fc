/** Field elements: masked selection, byte encodings and the tests built on them. */
module Fe448 {
  import opened Congruence
  import opened Prime448
  import opened Radix
  import opened Words
  import opened Fe448Kernels
  import LB = LimbBytes

  /** The negation of a tight element is tight. */
  method Neg(out: array<int>, a: array<int>)
    requires out.Length == 16 && Tight(a[..])
    modifies out
    ensures Tight(out[..]) && FeVal(out[..]) == -old(FeVal(a[..]))
  {
    ghost var x := a[..];
    for i := 0 to 16
      invariant forall k :: 0 <= k < i ==> out[k] == -x[k]
      invariant forall k :: i <= k < 16 ==> a[k] == x[k]
    {
      out[i] := -a[i];
    }
    ValTimes(out[..], x, -1);
  }

  lemma SelectWord(x: int, y: int, bit: int)
    requires bit == 0 || bit == 1
    ensures Lxor(x, Land(Lxor(x, y), -bit)) == if bit == 0 then x else y
  {
    LandMask(Lxor(x, y));
    LxorZero(x);
    LxorCancel(x, y);
  }

  /** out = a if bit = 0, b if bit = 1, without branching; out may alias either. */
  method Select(out: array<int>, a: array<int>, b: array<int>, bit: int)
    requires out.Length == a.Length == b.Length == 16 && (bit == 0 || bit == 1)
    modifies out
    ensures out[..] == if bit == 0 then old(a[..]) else old(b[..])
  {
    ghost var want := if bit == 0 then a[..] else b[..];
    var mask := -bit;
    for i := 0 to 16
      invariant forall k :: 0 <= k < i ==> out[k] == want[k]
      invariant forall k :: i <= k < 16 ==> a[k] == old(a[k]) && b[k] == old(b[k])
    {
      var x := a[i];
      SelectWord(x, b[i], bit);
      out[i] := Lxor(x, Land(Lxor(x, b[i]), mask));
    }
  }

  /** Swap a and b if bit = 1. */
  method Cswap(a: array<int>, b: array<int>, bit: int)
    requires a != b && a.Length == b.Length == 16 && (bit == 0 || bit == 1)
    modifies a, b
    ensures a[..] == old(if bit == 0 then a[..] else b[..])
    ensures b[..] == old(if bit == 0 then b[..] else a[..])
  {
    var mask := -bit;
    for i := 0 to 16
      invariant forall k :: 0 <= k < i ==> a[k] == old(if bit == 0 then a[k] else b[k])
      invariant forall k :: 0 <= k < i ==> b[k] == old(if bit == 0 then b[k] else a[k])
      invariant forall k :: i <= k < 16 ==> a[k] == old(a[k]) && b[k] == old(b[k])
    {
      var x, y := a[i], b[i];
      var t := Land(Lxor(x, y), mask);
      SelectWord(x, y, bit);
      SelectWord(y, x, bit);
      LxorCommutes(x, y);
      a[i] := Lxor(x, t);
      b[i] := Lxor(y, t);
    }
  }

  /** Any 56-byte string as a little-endian integer; values >= P are kept congruent. */
  method OfBytes(out: array<int>, s: Octets, off: nat)
    requires out.Length == 16 && off + 56 <= |s|
    modifies out
    ensures Tight(out[..]) && Cong(FeVal(out[..]), Val(256, s[off..off + 56]), P)
  {
    LB.Load(out, 16, s[off..off + 56]);
    assert out[..16] == out[..] && s[off..off + 56][..56] == s[off..off + 56];
    Carry(out, out);
  }

  // ---------------------------------------------------------------- canonical encoding

  function PrimeLimbs(): seq<int> {
    seq(16, i => if i == 8 then R - 2 else R - 1)
  }

  lemma PrimeLimbsValue()
    ensures Digits(R, PrimeLimbs()) && Val(R, PrimeLimbs()) == P
  {
    var full := PrimeLimbs()[8 := R - 1];
    ValAllMax(R, full);
    ValUpdate(R, full, 8, R - 2);
    assert full[8 := R - 2] == PrimeLimbs();
    RadixPowers();
    PrimeValue();
  }

  /** Floor carries: unsigned limbs and a top carry in {-1, 0}. */
  method FloorCarry(u: array<int>, h: seq<int>) returns (c: int)
    requires u.Length == |h| == 16 && forall i :: 0 <= i < 16 ==> 1 - R <= h[i] < R
    modifies u
    ensures Digits(R, u[..]) && (c == -1 || c == 0)
    ensures Val(R, u[..]) + c * Pow(R, 16) == Val(R, h)
  {
    c := 0;
    ghost var done := [];
    for i := 0 to 16
      invariant c == -1 || c == 0
      invariant done == u[..i] && |done| == i && Digits(R, done)
      invariant Val(R, done) + c * Pow(R, i) == Val(R, h[..i])
    {
      var x := h[i] + c;
      ValPrefix(R, h, i);
      FloorStep(R, done, h[i], c, x / R, x % R);
      u[i] := x % R;
      done := done + [x % R];
      assert u[..i + 1] == done;
      c := x / R;
    }
    assert h[..16] == h && u[..16] == u[..];
  }

  lemma TightMagnitude(h: seq<int>)
    requires Tight(h)
    ensures -P < FeVal(h) < P
  {
    ValMagnitude(R, h, TIGHT);
    RadixPowers();
    PrimeValue();
  }

  /** Folding the top carry of a floor-carried element leaves a value in [0, 2^448). */
  lemma FoldedRange(h: int, v: int, c: int)
    requires -P < h < P && 0 <= v < PHI * PHI && (c == -1 || c == 0)
    requires v + c * (PHI * PHI) == h
    ensures 0 <= v + c + c * PHI < PHI * PHI && v + c + c * PHI == h - c * P
  {
    PrimeValue();
  }

  lemma OneSubtraction(u: int, h: int, k: int)
    requires 0 <= u < PHI * PHI && u == h + k * P
    ensures h % P == if u < P then u else u - P
  {
    var r: int, j: int := if u < P then u else u - P, if u < P then k else k - 1;
    PrimeShape();
    assert P * (k - 1) == P * k - P;
    CongIntro(r, h, P, j);
    CongMod(h, P);
    CongSym(h % P, h, P);
    CongTrans(r, h, h % P, P);
    CongSmall(r, h % P, P);
  }

  /** The two carries: u holds an unsigned number congruent to h, below 2^448. */
  method Unsigned(u: array<int>, h: seq<int>) returns (ghost k: int)
    requires u.Length == 16 && Tight(h)
    modifies u
    ensures Digits(R, u[..]) && Val(R, u[..]) == FeVal(h) + k * P
  {
    var c := FloorCarry(u, h);
    RadixPowers();
    TightMagnitude(h);
    ValBounds(R, u[..]);
    FoldedRange(FeVal(h), Val(R, u[..]), c);
    ghost var first := u[..];
    u[0] := u[0] + c;
    u[8] := u[8] + c;
    FoldTopValue(first, c);
    assert u[..] == first[0 := first[0] + c][8 := first[8] + c];
    var top := FloorCarry(u, u[..]);
    ValBounds(R, u[..]);
    k := -c;
  }

  lemma FoldTopValue(s: seq<int>, c: int)
    requires |s| == 16
    ensures Val(R, s[0 := s[0] + c][8 := s[8] + c]) == Val(R, s) + c + c * PHI
  {
    ValUpdate(R, s, 0, s[0] + c);
    ValUpdate(R, s[0 := s[0] + c], 8, s[8] + c);
    RadixPowers();
  }

  method CanonicalLimbs(h: seq<int>) returns (u: array<int>)
    requires Tight(h)
    ensures fresh(u) && u.Length == 16 && Digits(R, u[..]) && Val(R, u[..]) == FeVal(h) % P
  {
    u := new int[16];
    var w := new int[16];
    ghost var k := Unsigned(u, h);
    ValBounds(R, u[..]);
    RadixPowers();
    PrimeLimbsValue();
    var borrow := LB.Subtract(w, u[..], PrimeLimbs());
    OneSubtraction(Val(R, u[..]), FeVal(h), k);
    ValBounds(R, w[..]);
    Select(u, w, u, borrow);
  }

  /** The 56 little-endian bytes of the representative in [0, P). */
  method ToBytes(out: array<int>, off: nat, h: array<int>)
    requires Tight(h[..]) && off + 56 <= out.Length && out != h
    modifies out
    ensures out[off..off + 56] == ToDigits(256, FeVal(h[..]) % P, 56)
    ensures forall k :: 0 <= k < out.Length && !(off <= k < off + 56) ==> out[k] == old(out[k])
  {
    var u := CanonicalLimbs(h[..]);
    LB.Store(out, off, u[..]);
    DigitsAreToDigits(256, out[off..off + 56]);
  }

  /** 1 if the first len bytes agree, 0 otherwise: differences accumulate by `lor`. */
  method BytesEqual(a: Octets, b: Octets, len: nat) returns (r: int)
    requires len <= |a| && len <= |b|
    ensures r == if a[..len] == b[..len] then 1 else 0
  {
    var acc := 0;
    for i := 0 to len
      invariant 0 <= acc < 256
      invariant acc == 0 <==> a[..i] == b[..i]
    {
      assert Pow(2, 8) == 256;
      LxorBelow(a[i], b[i], 8);
      LxorIsZero(a[i], b[i]);
      LorBelow(acc, Lxor(a[i], b[i]), 8);
      LorIsZero(acc, Lxor(a[i], b[i]));
      assert a[..i + 1] == a[..i] + [a[i]] && b[..i + 1] == b[..i] + [b[i]];
      acc := Lor(acc, Lxor(a[i], b[i]));
    }
    TopBit(acc - 1);
    r := Land(Lsr63(acc - 1, 62), 1);
  }

  method Canonical(a: array<int>) returns (bytes: Octets)
    requires Tight(a[..])
    ensures bytes == ToDigits(256, FeVal(a[..]) % P, 56)
  {
    var x := new int[56];
    ToBytes(x, 0, a);
    assert x[..] == x[0..56];
    bytes := x[..];
  }

  lemma CanonicalInjective(u: int, v: int)
    requires 0 <= u < P && 0 <= v < P
    ensures ToDigits(256, u, 56) == ToDigits(256, v, 56) <==> u == v
  {
    BytePower();
    PrimeShape();
    ToDigitsValue(256, u, 56);
    ToDigitsValue(256, v, 56);
  }

  lemma BytePower()
    ensures Pow(256, 56) == PHI * PHI
  {
    assert Pow(256, 7) == 0x100_0000_0000_0000;
    PowMul(256, 7, 8);
    assert Pow(0x100_0000_0000_0000, 8) == PHI * PHI;
  }

  /** 1 exactly when a and b are the same field element. */
  method Equal(a: array<int>, b: array<int>) returns (r: int)
    requires Tight(a[..]) && Tight(b[..])
    ensures r == if Cong(FeVal(a[..]), FeVal(b[..]), P) then 1 else 0
  {
    var x := Canonical(a);
    var y := Canonical(b);
    CongIff(FeVal(a[..]), FeVal(b[..]), P);
    CanonicalInjective(FeVal(a[..]) % P, FeVal(b[..]) % P);
    assert x[..56] == x && y[..56] == y;
    r := BytesEqual(x, y, 56);
  }

  /** 1 exactly when a is the zero element. */
  method IsZero(a: array<int>) returns (r: int)
    requires Tight(a[..])
    ensures r == if Cong(FeVal(a[..]), 0, P) then 1 else 0
  {
    var x := Canonical(a);
    CongIff(FeVal(a[..]), 0, P);
    CanonicalInjective(FeVal(a[..]) % P, 0);
    ZeroBytes(56);
    var zeros := seq(56, _ => 0);
    assert x[..56] == x && zeros[..56] == zeros;
    r := BytesEqual(x, zeros, 56);
  }

  lemma {:induction false} ZeroBytes(n: nat)
    ensures ToDigits(256, 0, n) == seq(n, _ => 0)
  {
    if n > 0 {
      ZeroBytes(n - 1);
    }
  }

  /** The low bit of the canonical representative. */
  method IsNegative(a: array<int>) returns (r: int)
    requires Tight(a[..])
    ensures r == FeVal(a[..]) % P % 2
  {
    var x := Canonical(a);
    LowBit(FeVal(a[..]) % P, x);
    r := x[0] % 2;
  }

  lemma LowBit(n: int, x: seq<int>)
    requires x == ToDigits(256, n, 56)
    ensures |x| == 56 && x[0] % 2 == n % 2
  {
    FirstDigit(256, n, 56);
  }
}
