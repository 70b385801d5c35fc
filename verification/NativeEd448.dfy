/** Ed448 as the C code computes it, on words, lanes and point structs. Signatures and verdicts are
    those of the reference functions, hence those of the OCaml code, on every input. */
module NativeEd448 {
  import opened Arith
  import opened Congruence
  import opened Radix
  import opened Words
  import opened Prime448
  import opened Sponge
  import opened Order
  import opened Field
  import opened Curve
  import opened Group
  import opened Extended
  import opened Encoding
  import opened Ge448
  import opened NativeField
  import opened NativeGe
  import opened NativeShake
  import opened Ed448Spec
  import GeBytes
  import GeSelect
  import Scalar448
  import Sc448
  import Ed448
  import Shake256

  const WORD: int := 0x1_0000_0000

  function Scalar(a: seq<int>): int {
    Val(WORD, a)
  }

  ghost predicate Setting(b: Point, tables: seq<seq<Precomp>>, f: Permutation, g: LanePermutation) {
    GroupFacts() && OnCurve(b) && OrderAt(b, L) && BaseTables(tables, b) && Agrees(f, g)
  }

  // ---------------------------------------------------------------- points and bytes

  /** `ge448_tobytes` */
  method ToBytes(h: P3, ghost p: Point) returns (s: seq<int>)
    requires Fermat() && h.Is(p)
    ensures s == Encode(p)
  {
    var recip := FeInvert(h.z);
    var x := FeMul(h.x, recip);
    var y := FeMul(h.y, recip);
    GeBytes.AffineValues(p, h.x, h.y, h.z, h.t, recip, x, y);
    s := ToDigits(256, y % P, 56) + [128 * (x % P % 2)];
  }

  /** u = y^2 - 1 and v = d y^2 - 1. */
  method SolveX(y: int) returns (x: int, ok: int)
    ensures x % P == RootOf(y) && ok == if IsRootOf(RootOf(y), y) then 1 else 0
  {
    var y2 := FeMul(y, y);
    var t := FeSub(y2, 1);
    var u := FeCarry(t);
    var dy2 := FeMul(y2, D % P);
    var w := FeSub(dy2, 1);
    var v := FeCarry(w);
    CongRefl(1, P);
    CongMod(D, P);
    EqDifference(t, y2, 1, y * y, 1);
    CongTrans(u, t, y * y - 1, P);
    EqProduct(dy2, y2, D % P, y * y, D);
    assert (y * y) * D == D * (y * y);
    EqDifference(w, dy2, 1, D * (y * y), 1);
    CongTrans(v, w, D * (y * y) - 1, P);
    x, ok := FeSqrtRatio(u, v);
    GeBytes.RootFound(x, u, v, y);
  }

  /** `fe_cmov`: g if b = 1. */
  method FeCmov(f: int, g: int, b: int) returns (r: int)
    requires b == 0 || b == 1
    ensures r == if b == 1 then g else f
  {
    r := if b == 1 then g else f;
  }

  /** The root with the parity of the sign bit. */
  method ChooseSign(x: int, sign: int) returns (r: int)
    requires sign == 0 || sign == 1
    ensures r % P == if x % P % 2 != sign then (-(x % P)) % P else x % P
  {
    var minus := FeCarry(-x);
    var negative := FeIsNegative(x);
    var flip := GeBytes.Xor(negative, sign);
    r := FeCmov(x, minus, flip);
    CongMod(x, P);
    CongRefl(0, P);
    CongAdd(0, 0, x % P, x, P);
    CongIff(-(x % P), -x, P);
    CongIff(minus, -x, P);
  }

  /** Rejects a zero x that carries a sign bit. */
  method SignAllowed(x: int, sign: int) returns (ok: int)
    requires sign == 0 || sign == 1
    ensures ok == if x % P == 0 && sign == 1 then 0 else 1
  {
    var nonzero := FeIsNonzero(x);
    CongIff(x, 0, P);
    var zero := GeBytes.Xor(1, nonzero);
    var bad := GeBytes.And(zero, sign);
    ok := GeBytes.Xor(1, bad);
  }

  lemma DecodedFields(x: int, n: int, t: int, p: Point)
    requires OnCurve(p) && x % P == p.x && n == p.y && Eq(t, x * (n % P))
    ensures Represents(x, n % P, 1, t, p)
  {
    CongMod(n, P);
    GeBytes.DecodedPoint(x, n % P, t, p);
  }

  /** The three tests, and x with the sign asked for. */
  method RecoverX(s: Octets, n: int) returns (ok: int, x: int)
    requires |s| == 57 && n == Val(256, s[..56])
    ensures ok == if Decode(s).Some? then 1 else 0
    ensures ok == 1 ==> x % P == Decode(s).value.x && n == Decode(s).value.y
  {
    var sign, top := s[56] / 128, s[56] % 128;
    var canonical := CanonicalBytes(s[..56], top);
    var root;
    x, root := SolveX(n);
    ok := GeBytes.And(canonical, root);
    var allowed := SignAllowed(x, sign);
    ok := GeBytes.And(ok, allowed);
    x := ChooseSign(x, sign);
    LastOctet(s[..56], top);
  }

  /** `ge448_frombytes`: accepts exactly the encodings of curve points. */
  method FromBytes(h: P3, s: Octets) returns (ok: int)
    requires FieldFacts() && |s| == 57
    modifies h
    ensures ok == if Decode(s).Some? then 1 else 0
    ensures ok == 1 ==> h.Is(Decode(s).value)
  {
    var n := Val(256, s[..56]);
    var x;
    ok, x := RecoverX(s, n);
    h.x := x;
    h.y := n % P;
    h.z := 1;
    h.t := FeMul(x, n % P);
    if ok == 1 {
      EncodeDecode(s);
      DecodedFields(x, n, h.t, Decode(s).value);
    }
  }

  method CanonicalBytes(low: Octets, top: int) returns (ok: int)
    requires |low| == 56 && 0 <= top < 128
    ensures ok == if 0 <= Val(256, low + [top]) < P then 1 else 0
  {
    var clear := CtEq(top, 0);
    var n := Val(256, low);
    var canonical := FeToBytes(n);
    var same := CtBytesEq(canonical, low, 56);
    ok := GeBytes.And(clear, same);
    assert canonical[..56] == canonical && low[..56] == low;
    CongRefl(n, P);
    GeBytes.ReencodesIff(low, n);
    LastOctet(low, top);
    ValBounds(256, low);
  }

  // ---------------------------------------------------------------- hashing

  /** `ed448_absorb_dom4` */
  method AbsorbDom4(hash: Context, phflag: int, ctx: Octets)
    requires hash.Absorbing() && |ctx| <= 255 && 0 <= phflag <= 1
    modifies hash`pos, hash`message, hash.st
    ensures hash.Absorbing() && hash.message == old(hash.message) + Dom4(phflag, ctx)
  {
    hash.Absorb(SIG_ED448);
    hash.Absorb([phflag, |ctx|]);
    hash.Absorb(ctx);
    assert SIG_ED448 + [phflag, |ctx|] + ctx == Dom4(phflag, ctx);
  }

  /** SHAKE256(dom4 || parts, 114) mod L, as words. */
  method HashToScalar(g: LanePermutation, ghost f: Permutation, phflag: int, ctx: Octets, parts: seq<Octets>, ghost data: Octets)
    returns (r: array<int>)
    requires Agrees(f, g) && |ctx| <= 255 && 0 <= phflag <= 1 && data == Dom4(phflag, ctx) + Shake256.Flat(parts)
    ensures fresh(r) && r.Length == 14 && Scalar448.Reduced(r[..])
    ensures Scalar(r[..]) == Number(Shake(f)(data)) % L
  {
    var hash := new Context(g, f);
    AbsorbDom4(hash, phflag, ctx);
    AbsorbAll(hash, parts);
    assert hash.message == data;
    hash.Finalize();
    var digest := NativeShake.SqueezeOnce(hash, data, 114);
    r := new int[14];
    Scalar448.ReduceDigest(r, digest);
  }

  lemma ThreeParts(dom: Octets, a: Octets, b: Octets, c: Octets)
    ensures dom + Shake256.Flat([a, b, c]) == dom + a + b + c
  {
    assert [a, b, c][..2] == [a, b] && [a, b][..1] == [a];
    assert Shake256.Flat([a]) == a;
  }

  lemma TwoParts(dom: Octets, a: Octets, b: Octets)
    ensures dom + Shake256.Flat([a, b]) == dom + a + b
  {
    assert [a, b][..1] == [a];
    assert Shake256.Flat([a]) == a;
  }

  // ---------------------------------------------------------------- keys and signatures

  /** `ed448_expand` */
  method Expand(g: LanePermutation, ghost f: Permutation, seed: Octets) returns (s: array<int>, prefix: seq<int>)
    requires Agrees(f, g)
    ensures fresh(s) && s.Length == 14 && Scalar448.Reduced(s[..]) && Scalar(s[..]) == SecretScalar(Shake(f), seed) % L
    ensures Digits(256, prefix) && prefix == Prefix(Shake(f), seed)
  {
    var h := NativeShake.Digest(g, f, seed, 114);
    ghost var p := Pruned(h);
    prefix := h[57..];
    PruneBounds(h[0]);
    PruneBounds(h[55]);
    h := h[0 := Land(h[0], 0xfc)];
    h := h[55 := Lor(h[55], 0x80)];
    h := h[56 := 0];
    assert h[..57] == p;
    var wide := h[..57] + seq(57, _ => 0);
    Sc448.PaddedValue(p, 57);
    s := new int[14];
    Scalar448.ReduceDigest(s, wide);
  }

  method EncodedBase(a: array<int>, tables: seq<seq<Precomp>>, ghost n: nat, ghost b: Point) returns (enc: seq<int>)
    requires GroupFacts() && OnCurve(b) && OrderAt(b, L) && BaseTables(tables, b)
    requires a.Length == 14 && Scalar448.Reduced(a[..]) && Scalar(a[..]) == n % L
    ensures enc == Encode(SMul(n, b)) && Digits(256, enc)
  {
    var h := new P3();
    OrderShape();
    SMulModulo(n, L, b);
    EncodedMultiple(n, b);
    NativeGe.ScalarmultBase(h, a, tables, b);
    enc := ToBytes(h, SMul(n, b));
  }

  /** `ed448_public_key` */
  method Public(g: LanePermutation, ghost f: Permutation, seed: Octets, tables: seq<seq<Precomp>>, ghost b: Point)
    returns (pub: seq<int>)
    requires Setting(b, tables, f, g)
    ensures pub == PublicKey(Shake(f), b, seed)
  {
    var s, prefix := Expand(g, f, seed);
    pub := EncodedBase(s, tables, SecretScalar(Shake(f), seed), b);
  }

  method NonceScalar(g: LanePermutation, ghost f: Permutation, prefix: Octets, phflag: int, ctx: Octets, msg: Octets,
                     ghost seed: Octets) returns (r: array<int>)
    requires Agrees(f, g) && |ctx| <= 255 && 0 <= phflag <= 1 && prefix == Prefix(Shake(f), seed)
    ensures fresh(r) && r.Length == 14 && Scalar448.Reduced(r[..]) && Scalar(r[..]) == Nonce(Shake(f), seed, phflag, ctx, msg) < L
  {
    TwoParts(Dom4(phflag, ctx), prefix, msg);
    r := HashToScalar(g, f, phflag, ctx, [prefix, msg], Dom4(phflag, ctx) + prefix + msg);
  }

  method ChallengeScalar(g: LanePermutation, ghost f: Permutation, rEnc: Octets, pub: Octets, phflag: int, ctx: Octets, msg: Octets)
    returns (k: array<int>)
    requires Agrees(f, g) && |ctx| <= 255 && 0 <= phflag <= 1
    ensures fresh(k) && k.Length == 14 && Scalar448.Reduced(k[..])
    ensures Scalar(k[..]) == Challenge(Shake(f), phflag, ctx, rEnc, pub, msg) % L
  {
    ThreeParts(Dom4(phflag, ctx), rEnc, pub, msg);
    k := HashToScalar(g, f, phflag, ctx, [rEnc, pub, msg], Dom4(phflag, ctx) + rEnc + pub + msg);
  }

  /** S = (k s + r) mod L in 57 octets. The ghost numbers are the three scalars. */
  method Respond(k: array<int>, s: array<int>, r: array<int>, ghost challenge: nat, ghost secret: nat, ghost nonce: nat)
    returns (enc: seq<int>)
    requires k.Length == s.Length == r.Length == 14
    requires Scalar448.Reduced(k[..]) && Scalar448.Reduced(s[..]) && Scalar448.Reduced(r[..])
    requires Scalar(k[..]) == challenge && Scalar(s[..]) == secret % L && Scalar(r[..]) == nonce
    ensures enc == ResponseOctets(challenge, secret, nonce)
  {
    var big := new int[14];
    Scalar448.MulAdd(big, k, s, r);
    Ed448.ReducedResponse(challenge, secret, nonce);
    MulMonotone(0, challenge, secret);
    enc := Scalar448.ToBytes(big[..]);
  }

  method FinishSignature(g: LanePermutation, ghost f: Permutation, s: array<int>, r: array<int>, rEnc: Octets, pub: Octets,
                         phflag: int, ctx: Octets, msg: Octets, ghost secret: nat) returns (sig: seq<int>)
    requires Agrees(f, g) && s.Length == r.Length == 14 && |rEnc| == 57 && |ctx| <= 255 && 0 <= phflag <= 1
    requires Scalar448.Reduced(s[..]) && Scalar448.Reduced(r[..]) && Scalar(s[..]) == secret % L && Scalar(r[..]) >= 0
    ensures sig == SignWith(Shake(f), secret, Scalar(r[..]), rEnc, pub, phflag, ctx, msg)
  {
    var k := ChallengeScalar(g, f, rEnc, pub, phflag, ctx, msg);
    ghost var challenge, nonce := Challenge(Shake(f), phflag, ctx, rEnc, pub, msg) % L, Scalar(r[..]);
    var enc := Respond(k, s, r, challenge, secret, nonce);
    sig := rEnc + enc;
    Ed448.SignatureIs(sig, Shake(f), secret, nonce, challenge, rEnc, pub, phflag, ctx, msg);
  }

  /** `ed448_sign` */
  method Sign(g: LanePermutation, ghost f: Permutation, seed: Octets, pub: Octets, phflag: int, ctx: Octets, msg: Octets,
              tables: seq<seq<Precomp>>, ghost b: Point) returns (sig: seq<int>)
    requires Setting(b, tables, f, g) && |ctx| <= 255 && 0 <= phflag <= 1
    ensures sig == SignFor(Shake(f), b, seed, pub, phflag, ctx, msg)
  {
    ghost var n := Nonce(Shake(f), seed, phflag, ctx, msg);
    var s, prefix := Expand(g, f, seed);
    var r := NonceScalar(g, f, prefix, phflag, ctx, msg, seed);
    QuotientUnique(n, L, 0, n);
    var rEnc := EncodedBase(r, tables, n, b);
    sig := FinishSignature(g, f, s, r, rEnc, pub, phflag, ctx, msg, SecretScalar(Shake(f), seed));
  }

  // ---------------------------------------------------------------- verification

  method CheckFourTimes(x: P3, ghost p: Point) returns (ok: bool)
    requires FieldFacts() && x.Is(p)
    modifies x
    ensures ok <==> FourTimes(p) == Identity
  {
    ForgetT(x.x, x.y, x.z, x.t, p);
    var r := Dbl(P2(x.x, x.y, x.z), p);
    x.FromCompleted(r, Twice(p));
    ForgetT(x.x, x.y, x.z, x.t, Twice(p));
    r := Dbl(P2(x.x, x.y, x.z), Twice(p));
    x.FromCompleted(r, FourTimes(p));
    var same := IsIdentity(x, FourTimes(p));
    ok := same == 1;
  }

  /** `ge448_is_identity` */
  method IsIdentity(x: P3, ghost p: Point) returns (ok: int)
    requires Fermat() && x.Is(p)
    ensures ok == if p == Identity then 1 else 0
  {
    var nonzero := FeIsNonzero(x.x);
    var zero := GeBytes.Xor(1, nonzero);
    var equal := FeEqual(x.y, x.z);
    ok := GeBytes.And(zero, equal);
    GeBytes.IdentityIff(x.x, x.y, x.z, x.t, p);
  }

  /** [4]([S]B - [k]A - R) = O */
  method CheckEquation(s: array<int>, k: array<int>, a: P3, r: P3, tables: seq<seq<Precomp>>,
                       ghost p: Point, ghost q: Point, ghost b: Point) returns (ok: bool)
    requires GroupFacts() && OnCurve(b) && BaseTables(tables, b) && a.Is(p) && r.Is(q) && a != r
    requires s.Length == k.Length == 14 && Scalar448.Reduced(s[..]) && Scalar448.Reduced(k[..])
    requires 0 <= Scalar(s[..]) < L && 0 <= Scalar(k[..]) < L
    modifies a, r
    ensures ok <==> GroupEquation(b, Scalar(s[..]), q, Scalar(k[..]), p)
  {
    ghost var m, n := Scalar(s[..]), Scalar(k[..]);
    OrderShape();
    var x := new P3();
    var y := new P3();
    NativeGe.ScalarmultBase(x, s, tables, b);
    a.Negate(a, p);
    NativeGe.Scalarmult(y, k, a, Curve.Neg(p));
    var c := NativeGe.ToCached(y, SMul(n, Curve.Neg(p)));
    var t := NativeGe.Sum(x, c, SMul(m, b), SMul(n, Curve.Neg(p)));
    ghost var sum := Curve.Add(SMul(m, b), SMul(n, Curve.Neg(p)));
    x.FromCompleted(t, sum);
    r.Negate(r, q);
    c := NativeGe.ToCached(r, Curve.Neg(q));
    t := NativeGe.Sum(x, c, sum, Curve.Neg(q));
    x.FromCompleted(t, Curve.Add(sum, Curve.Neg(q)));
    ok := CheckFourTimes(x, Curve.Add(sum, Curve.Neg(q)));
    CodeEquation(b, m, q, n, p);
  }

  method LoadResponse(sig: Octets) returns (s: array<int>)
    requires |sig| == 114 && Number(sig[57..]) < L
    ensures fresh(s) && s.Length == 14 && Scalar448.Reduced(s[..]) && Scalar(s[..]) == Number(sig[57..])
  {
    Ed448.SlotScalar(sig);
    s := new int[14];
    Scalar448.FromBytes(s, sig[57..]);
  }

  /** `ed448_verify` */
  method Verify(g: LanePermutation, ghost f: Permutation, sig: Octets, pub: Octets, phflag: int, ctx: Octets, msg: Octets,
                tables: seq<seq<Precomp>>, ghost b: Point) returns (ok: bool)
    requires Setting(b, tables, f, g) && Exponent()
    requires |sig| == 114 && |pub| == 57 && |ctx| <= 255 && 0 <= phflag <= 1
    ensures ok <==> Ed448Spec.Verify(Shake(f), b, sig, pub, phflag, ctx, msg)
  {
    var canonical := Scalar448.IsCanonical(sig[57..]);
    if canonical != 1 {
      return false;
    }
    var a := new P3();
    var okA := FromBytes(a, pub);
    if okA != 1 {
      return false;
    }
    var r := new P3();
    var okR := FromBytes(r, sig[..57]);
    if okR != 1 {
      return false;
    }
    ok := VerifyDecoded(g, f, sig, pub, phflag, ctx, msg, tables, a, r, Decode(pub).value, Decode(sig[..57]).value, b);
  }

  method VerifyDecoded(g: LanePermutation, ghost f: Permutation, sig: Octets, pub: Octets, phflag: int, ctx: Octets, msg: Octets,
                       tables: seq<seq<Precomp>>, a: P3, r: P3, ghost p: Point, ghost q: Point, ghost b: Point) returns (ok: bool)
    requires Setting(b, tables, f, g) && Exponent() && a.Is(p) && r.Is(q) && a != r
    requires |sig| == 114 && |ctx| <= 255 && 0 <= phflag <= 1 && Number(sig[57..]) < L
    modifies a, r
    ensures ok <==> GroupEquation(b, Number(sig[57..]), q, Challenge(Shake(f), phflag, ctx, sig[..57], pub, msg), p)
  {
    var k := ChallengeScalar(g, f, sig[..57], pub, phflag, ctx, msg);
    var s := LoadResponse(sig);
    assert ExponentAt(p);
    ok := CheckEquation(s, k, a, r, tables, p, q, b);
    ReducedEquation(b, Number(sig[57..]), q, Challenge(Shake(f), phflag, ctx, sig[..57], pub, msg), p);
  }

  // ---------------------------------------------------------------- the two backends

  /** The OCaml and the C signer return the same signature, and each verifier accepts it. */
  method BackendsAgree(g: LanePermutation, f: Permutation, seed: Octets, phflag: int, ctx: Octets, msg: Octets,
                       tables: seq<seq<Precomp>>, tbl: seq<int>, ghost b: Point)
    returns (ocaml: seq<int>, native: seq<int>, ocamlAccepts: bool, nativeAccepts: bool)
    requires Setting(b, tables, f, g) && GeSelect.BaseTable(tbl, b) && Exponent()
    requires |seed| == 57 && |ctx| <= 255 && 0 <= phflag <= 1
    ensures ocaml == native == Ed448Spec.Sign(Shake(f), b, seed, phflag, ctx, msg)
    ensures ocamlAccepts && nativeAccepts
  {
    SignatureVerifies(Shake(f), b, seed, phflag, ctx, msg);
    var derived, pub := Ed448.Public(f, seed, tbl, b);
    var out := new int[114];
    var signed := Ed448.Sign(out, f, seed, pub, phflag, ctx, msg, tbl, b);
    ocaml := out[..];
    native := Sign(g, f, seed, pub, phflag, ctx, msg, tables, b);
    nativeAccepts := Verify(g, f, ocaml, pub, phflag, ctx, msg, tables, b);
    ocamlAccepts := Ed448.Verify(f, native, pub, phflag, ctx, msg, tbl, b);
  }

  /** The two verifiers return the same verdict on any 114-octet signature and 57-octet key. */
  method VerdictsAgree(g: LanePermutation, f: Permutation, sig: Octets, pub: Octets, phflag: int, ctx: Octets, msg: Octets,
                       tables: seq<seq<Precomp>>, tbl: seq<int>, ghost b: Point) returns (ocaml: bool, native: bool)
    requires Setting(b, tables, f, g) && GeSelect.BaseTable(tbl, b) && Exponent()
    requires |sig| == 114 && |pub| == 57 && |ctx| <= 255 && 0 <= phflag <= 1
    ensures ocaml == native == Ed448Spec.Verify(Shake(f), b, sig, pub, phflag, ctx, msg)
  {
    ocaml := Ed448.Verify(f, sig, pub, phflag, ctx, msg, tbl, b);
    native := Verify(g, f, sig, pub, phflag, ctx, msg, tables, b);
  }
}
