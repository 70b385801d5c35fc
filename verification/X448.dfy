/** X448 (RFC 7748, section 5) on limb records: scalar pruning, the ladder with deferred
    conditional swaps, inversion and the all-zero check. */
module X448 {
  import opened Congruence
  import opened Radix
  import opened Words
  import opened Prime448
  import opened Field
  import opened FieldOps
  import opened Ladder
  import opened Pruning
  import opened Subdigits
  import opened X448Spec
  import Montgomery
  import MontgomeryLadder
  import K = Fe448

  /** The residue an element stands for. */
  function C(a: Elt): int {
    V(a) % P
  }

  lemma Canonicalised(a: int)
    ensures Eq(a % P, a) && Eq(a, a % P)
  {
    CongMod(a, P);
    CongSym(a % P, a, P);
  }

  method MulC(ghost o: Ops, a: Elt, b: Elt) returns (r: Elt)
    requires Modular(o)
    ensures C(r) == o.mul(C(a), C(b))
  {
    r := Mul(a, b);
    Canonicalised(V(a));
    Canonicalised(V(b));
    EqProduct(V(r), V(a), V(b), C(a), C(b));
    CongIff(V(r), C(a) * C(b), P);
    assert Operands(C(a), C(b), C(a), C(b));
  }

  method SqC(ghost o: Ops, a: Elt) returns (r: Elt)
    requires Modular(o)
    ensures C(r) == o.mul(C(a), C(a))
  {
    r := Sq(a);
    Canonicalised(V(a));
    EqProduct(V(r), V(a), V(a), C(a), C(a));
    CongIff(V(r), C(a) * C(a), P);
    assert Operands(C(a), C(a), C(a), C(a));
  }

  method AddC(ghost o: Ops, a: Elt, b: Elt) returns (r: Elt)
    requires Modular(o)
    ensures C(r) == o.add(C(a), C(b))
  {
    r := FieldOps.Add(a, b);
    Canonicalised(V(a));
    Canonicalised(V(b));
    CongAdd(V(a), C(a), V(b), C(b), P);
    CongTrans(V(r), V(a) + V(b), C(a) + C(b), P);
    CongIff(V(r), C(a) + C(b), P);
    assert Operands(C(a), C(b), C(a), C(b));
  }

  method SubC(ghost o: Ops, a: Elt, b: Elt) returns (r: Elt)
    requires Modular(o)
    ensures C(r) == o.sub(C(a), C(b))
  {
    r := Sub(a, b);
    Canonicalised(V(a));
    Canonicalised(V(b));
    CongAdd(V(a), C(a), V(b), C(b), P);
    CongTrans(V(r), V(a) - V(b), C(a) - C(b), P);
    CongIff(V(r), C(a) - C(b), P);
    assert Operands(C(a), C(b), C(a), C(b));
  }

  method MulA24(ghost o: Ops, a: Elt) returns (r: Elt)
    requires Modular(o)
    ensures C(r) == o.mul(C(a), A24)
  {
    r := MulSmall(a, 39081);
    Canonicalised(V(a));
    CongRefl(A24, P);
    EqProduct(V(r), V(a), A24, C(a), A24);
    CongIff(V(r), C(a) * A24, P);
    assert Operands(C(a), A24, C(a), A24);
  }

  /** The residues in the four registers. */
  function Held(x2: Elt, z2: Elt, x3: Elt, z3: Elt): Registers {
    Registers(C(x2), C(z2), C(x3), C(z3))
  }

  /** One step in the order of the OCaml code. */
  method LadderStep(ghost o: Ops, x1: Elt, x2: Elt, z2: Elt, x3: Elt, z3: Elt)
    returns (u2: Elt, w2: Elt, u3: Elt, w3: Elt)
    requires Modular(o)
    ensures Held(u2, w2, u3, w3) == Step(o, C(x1), Held(x2, z2, x3, z3))
  {
    var a := AddC(o, x2, z2);
    var aa := SqC(o, a);
    var b := SubC(o, x2, z2);
    var bb := SqC(o, b);
    var e := SubC(o, aa, bb);
    var c := AddC(o, x3, z3);
    var d := SubC(o, x3, z3);
    var da := MulC(o, d, a);
    var cb := MulC(o, c, b);
    var t := AddC(o, da, cb);
    u3 := SqC(o, t);
    t := SubC(o, da, cb);
    t := SqC(o, t);
    w3 := MulC(o, x1, t);
    u2 := MulC(o, aa, bb);
    t := MulA24(o, e);
    t := AddC(o, aa, t);
    w2 := MulC(o, e, t);
  }

  method XorBit(a: int, b: int) returns (r: int)
    requires 0 <= a <= 1 && 0 <= b <= 1
    ensures r == Flip(a, b)
  {
    r := Lxor(a, b);
  }

  /** The OCaml ladder: one conditional swap per bit and one at the end. */
  method RunLadder(ghost o: Ops, x1: Elt, bits: seq<int>) returns (x2: Elt, z2: Elt)
    requires Modular(o) && IsBits(bits)
    ensures C(x2) == Textbook(o, C(x1), bits, 0).x2 && C(z2) == Textbook(o, C(x1), bits, 0).z2
  {
    x2 := Small(1);
    z2 := Small(0);
    var x3, z3 := x1, x2;
    var swap, pos := 0, |bits|;
    while pos > 0
      invariant 0 <= pos <= |bits| && 0 <= swap <= 1
      invariant Held(x2, z2, x3, z3) == SwapIf(Textbook(o, C(x1), bits, pos), swap)
    {
      pos := pos - 1;
      var bit := bits[pos];
      DeferredStep(o, C(x1), bits, pos, Held(x2, z2, x3, z3), swap);
      swap := XorBit(swap, bit);
      x2, x3 := Cswap(x2, x3, swap);
      z2, z3 := Cswap(z2, z3, swap);
      swap := bit;
      x2, z2, x3, z3 := LadderStep(o, x1, x2, z2, x3, z3);
    }
    x2, x3 := Cswap(x2, x3, swap);
    z2, z3 := Cswap(z2, z3, swap);
  }

  // ---------------------------------------------------------------- the function

  /** The bits of a little-endian octet string: bit i is (k[i lsr 3] lsr (i land 7)) land 1. */
  method BitsOf(k: Octets) returns (bits: seq<int>)
    ensures |bits| == 8 * |k| && IsBits(bits) && Val(2, bits) == Val(256, k)
  {
    assert Pow(2, 8) == 256;
    BelowEnds(2, k, 8);
    bits := [];
    for i := 0 to 8 * |k|
      invariant |bits| == i && IsBits(bits) && Val(2, bits) == Below(2, k, 8, i)
    {
      BelowStep(2, k, 8, i);
      var d := SubDigit(2, k, 8, i);
      ValSnoc(2, bits, d);
      bits := bits + [d];
    }
  }

  lemma QuotientFound(x: int, zi: int, r: int, s: Registers, z: int)
    requires x % P == s.x2 && z % P == s.z2 && Eq(zi, Inv(z)) && Eq(r, x * zi)
    ensures r % P == Quotient(s)
  {
    Canonicalised(x);
    Canonicalised(z);
    PowCong(z, s.z2, P - 2);
    CongTrans(zi, Inv(z), Inv(s.z2), P);
    EqProduct(r, x, zi, s.x2, Inv(s.z2));
    CongIff(r, s.x2 * Inv(s.z2), P);
  }

  /** The encoding of the result, and whether it is not all zero. */
  method Deliver(r: Elt) returns (ok: bool, out: seq<int>)
    ensures out == ToDigits(256, V(r) % P, 56) && (ok <==> V(r) % P != 0)
  {
    out := ToBytes(r);
    var zeros := seq(56, _ => 0);
    K.ZeroBytes(56);
    K.CanonicalInjective(V(r) % P, 0);
    var same := K.BytesEqual(out, zeros, 56);
    assert out[..56] == out && zeros[..56] == zeros;
    ok := same == 0;
  }

  /** The quotient x_2 / z_2 of the last ladder pair. */
  method RunQuotient(ghost o: Ops, k: Octets, u: Octets) returns (r: Elt, ghost bits: seq<int>)
    requires Modular(o) && |k| == 56 && |u| == 56
    ensures IsBits(bits) && |bits| == 448 && Val(2, bits) == Val(256, k)
    ensures V(r) % P == Result(o, bits, Val(256, u) % P)
  {
    var b := BitsOf(k);
    bits := b;
    var x1 := OfBytes(u, 0);
    assert u[0..56] == u;
    CongIff(V(x1), Val(256, u), P);
    var x2, z2 := RunLadder(o, x1, b);
    var zi := Invert(z2);
    r := Mul(x2, zi);
    QuotientFound(V(x2), V(zi), V(r), Textbook(o, C(x1), b, 0), V(z2));
  }

  /** `x448`: false for wrong lengths and for an all-zero result. */
  method Compute(ghost o: Ops, scalar: Octets, u: Octets) returns (ok: bool, out: seq<int>, ghost bits: seq<int>)
    requires Modular(o)
    ensures |scalar| != 56 || |u| != 56 ==> !ok
    ensures |scalar| == 56 && |u| == 56 ==>
      && Digits(2, bits) && |bits| == 448 && Val(2, bits) == Val(256, PrunedKey(scalar))
      && out == ToDigits(256, Result(o, bits, Val(256, u) % P), 56)
      && (ok <==> Result(o, bits, Val(256, u) % P) != 0)
  {
    bits := [];
    if |scalar| != 56 || |u| != 56 {
      return false, [], [];
    }
    var r: Elt;
    r, bits := RunQuotient(o, PrunedKey(scalar), u);
    ok, out := Deliver(r);
  }

  method ComputeResidues(scalar: Octets, u: Octets) returns (ok: bool, out: seq<int>, ghost bits: seq<int>)
    requires |scalar| == 56 && |u| == 56
    ensures IsBits(bits) && Val(2, bits) == Val(256, PrunedKey(scalar))
    ensures out == ToDigits(256, Result(Residues(), bits, Val(256, u) % P), 56)
    ensures ok <==> Result(Residues(), bits, Val(256, u) % P) != 0
  {
    ResiduesAreModular();
    ok, out, bits := Compute(Residues(), scalar, u);
  }

  /** The bytes are the u-coordinate of k p, for k = 2^447 plus the scalar with bits 0, 1 and 447
      cleared, and p the point (u, v) of c v^2 = u^3 + 156326 u^2 + u; the call fails exactly when
      that coordinate is 0. Montgomery.EveryCoordinate finds c and v for every u. */
  method Multiply(scalar: Octets, u: Octets, ghost c: int, ghost v: int) returns (ok: bool, out: seq<int>)
    requires |scalar| == 56 && |u| == 56
    requires Fermat() && !Zero(c) && Montgomery.Associative(c) && 0 <= v < P
    requires var x := Val(256, u) % P; (c * (v * v) - (x * x * x + 156326 * (x * x) + x)) % P == 0
    ensures var k: nat, p := TWO_447 + 4 * (Val(256, scalar) / 4 % TWO_445), Montgomery.Affine(Val(256, u) % P, v);
      var r := Montgomery.UOf(Montgomery.Multiple(c, k, p));
      out == ToDigits(256, r, 56) && (ok <==> r != 0)
  {
    ghost var bits;
    ok, out, bits := ComputeResidues(scalar, u);
    MontgomeryLadder.ResultIsMultiple(bits, scalar, Val(256, u), c, v);
  }

  /** Whatever the scalar, a point of order 1, 2 or 4 is rejected. */
  method RejectSmallOrder(scalar: Octets, u: Octets) returns (ok: bool, out: seq<int>)
    requires |scalar| == 56 && |u| == 56
    requires var x := Val(256, u) % P; x == 0 || x == 1 || x == P - 1
    ensures !ok && out == ToDigits(256, 0, 56)
  {
    ghost var bits;
    ResiduesAreModular();
    SmallOrderIs(Val(256, u));
    ok, out, bits := ComputeResidues(scalar, u);
    SmallOrderResult(Residues(), bits, Val(256, u), scalar);
  }
}
