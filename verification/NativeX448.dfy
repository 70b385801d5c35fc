/** X448 as the C code computes it: the same bytes and the same verdict as the OCaml code. */
module NativeX448 {
  import opened Congruence
  import opened Radix
  import opened Prime448
  import opened Field
  import opened Ladder
  import opened Pruning
  import opened NativeField
  import opened Words
  import opened X448Spec
  import Montgomery
  import MontgomeryLadder
  import X448
  import K = Fe448

  lemma QuotientFound(s: Registers, zi: int, r: int)
    requires Eq(zi, Inv(s.z2)) && Eq(r, s.x2 * zi)
    ensures r % P == Quotient(s)
  {
    CongRefl(s.x2, P);
    EqProduct(r, s.x2, zi, s.x2, Inv(s.z2));
    CongIff(r, s.x2 * Inv(s.z2), P);
  }

  /** The encoding of the result, and 1 unless it is all zero. */
  method Deliver(r: int) returns (nonzero: int, out: seq<int>)
    ensures out == ToDigits(256, r % P, 56) && nonzero == if r % P == 0 then 0 else 1
  {
    out := FeToBytes(r);
    var zeros := seq(56, _ => 0);
    K.ZeroBytes(56);
    K.CanonicalInjective(r % P, 0);
    assert out[..56] == out && zeros[..56] == zeros;
    var same := CtBytesEq(out, zeros, 56);
    nonzero := Lxor(1, same);
  }

  /** `x448_scalar_mult` */
  method Compute(scalar: Octets, u: Octets) returns (nonzero: int, out: seq<int>, ghost bits: seq<int>)
    requires |scalar| == 56 && |u| == 56
    ensures IsBits(bits) && |bits| == 448 && Val(2, bits) == Val(256, PrunedKey(scalar))
    ensures out == ToDigits(256, Result(Residues(), bits, Val(256, u) % P), 56)
    ensures nonzero == if Result(Residues(), bits, Val(256, u) % P) == 0 then 0 else 1
  {
    var k := PrunedKey(scalar);
    var b := X448.BitsOf(k);
    bits := b;
    var x1 := Val(256, u) % P;
    var s := NativeLadder(Residues(), x1, b);
    var zi := FeInvert(s.z2);
    var r := FeMul(s.x2, zi);
    QuotientFound(s, zi, r);
    nonzero, out := Deliver(r);
  }

  /** As X448.Multiply, for the C code. */
  method Multiply(scalar: Octets, u: Octets, ghost c: int, ghost v: int) returns (nonzero: int, out: seq<int>)
    requires |scalar| == 56 && |u| == 56
    requires Fermat() && !Zero(c) && Montgomery.Associative(c) && 0 <= v < P
    requires var x := Val(256, u) % P; (c * (v * v) - (x * x * x + 156326 * (x * x) + x)) % P == 0
    ensures var k: nat, p := TWO_447 + 4 * (Val(256, scalar) / 4 % TWO_445), Montgomery.Affine(Val(256, u) % P, v);
      var r := Montgomery.UOf(Montgomery.Multiple(c, k, p));
      out == ToDigits(256, r, 56) && nonzero == if r == 0 then 0 else 1
  {
    ghost var bits;
    nonzero, out, bits := Compute(scalar, u);
    MontgomeryLadder.ResultIsMultiple(bits, scalar, Val(256, u), c, v);
  }

  /** Both backends return the same bytes and reject the same inputs. */
  method BackendsAgree(scalar: Octets, u: Octets)
    returns (ok: bool, out: seq<int>, nonzero: int, native: seq<int>)
    requires |scalar| == 56 && |u| == 56
    ensures out == native && (ok <==> nonzero == 1)
  {
    ghost var b, c;
    ResiduesAreModular();
    ok, out, b := X448.Compute(Residues(), scalar, u);
    nonzero, native, c := Compute(scalar, u);
    ValInjective(2, b, c);
  }
}
