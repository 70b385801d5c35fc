/** Ed448 and Ed448ph signatures (RFC 8032, sections 5.2.5 to 5.2.7) as the reference model
    writes them: integers, affine points and one call of the hash on the whole input. The base
    point and the hash function are arbitrary. */
module Ed448Spec {
  import opened Wrappers
  import opened Arith
  import opened Radix
  import opened Words
  import opened Sponge
  import opened Order
  import opened Curve
  import opened Group
  import opened Encoding
  import opened Ge448

  const SIG_ED448: seq<int> := [83, 105, 103, 69, 100, 52, 52, 56]

  function Dom4(phflag: int, ctx: Octets): Octets
    requires |ctx| <= 255
  {
    SIG_ED448 + [if phflag == 0 then 0 else 1] + [|ctx|] + ctx
  }

  type Digest = s: Octets | |s| == 114 witness seq(114, _ => 0)

  /** Any hash with 114 octets of output. */
  type HashFunction = Octets -> Digest

  /** SHAKE256 with 114 octets of output. */
  function Shake(f: Permutation): HashFunction {
    data => Sponge.Shake256(f, data, 114)
  }

  function Number(s: Octets): (n: nat)
    ensures n == Val(256, s)
  {
    ValBounds(256, s);
    Val(256, s)
  }

  lemma PruneBounds(a: int)
    requires 0 <= a < 256
    ensures 0 <= Land(a, 0xfc) < 256 && 0 <= Lor(a, 0x80) < 256
  {
    WordPowers();
    LandBelow(a, 0xfc);
    LorBelow(a, 0x80, 8);
  }

  /** The first half of the hash with its low two bits cleared, bit 447 set and octet 56 zero. */
  function Pruned(h: Octets): (p: Octets)
    requires |h| == 114
    ensures |p| == 57
  {
    PruneBounds(h[0]);
    PruneBounds(h[55]);
    [Land(h[0], 0xfc)] + h[1..55] + [Lor(h[55], 0x80), 0]
  }

  function SecretScalar(h: HashFunction, seed: Octets): nat {
    Number(Pruned(h(seed)))
  }

  function Prefix(h: HashFunction, seed: Octets): Octets {
    h(seed)[57..]
  }

  function PublicKey(h: HashFunction, b: Point, seed: Octets): seq<int> {
    Encode(SMul(SecretScalar(h, seed), b))
  }

  function Nonce(h: HashFunction, seed: Octets, phflag: int, ctx: Octets, msg: Octets): nat
    requires |ctx| <= 255
  {
    Number(h(Dom4(phflag, ctx) + Prefix(h, seed) + msg)) % L
  }

  function Challenge(h: HashFunction, phflag: int, ctx: Octets, r: Octets, pub: Octets, msg: Octets): nat
    requires |ctx| <= 255
  {
    Number(h(Dom4(phflag, ctx) + r + pub + msg))
  }

  /** The encoded response scalar S = (k s + r) mod L. */
  function ResponseOctets(k: nat, s: nat, r: nat): (t: Octets)
    ensures |t| == 57
  {
    MulMonotone(0, k, s);
    ToDigits(256, (k * s + r) % L, 57)
  }

  /** R || S, for the encoded R of the nonce. */
  function SignWith(h: HashFunction, s: nat, r: nat, rEnc: Octets, pub: Octets, phflag: int, ctx: Octets, msg: Octets): Octets
    requires |ctx| <= 255
  {
    rEnc + ResponseOctets(Challenge(h, phflag, ctx, rEnc, pub, msg) % L, s, r)
  }

  lemma EncodedMultiple(n: int, b: Point)
    requires FieldFacts() && OnCurve(b)
    ensures OnCurve(SMul(n, b)) && Digits(256, Encode(SMul(n, b)))
  {
    SMulOnCurve(n, b);
    CurvePoint(SMul(n, b));
    EncodeDigits(SMul(n, b));
  }

  /** The signature for a given encoded public key, which enters the challenge only. */
  ghost function SignFor(h: HashFunction, b: Point, seed: Octets, pub: Octets, phflag: int, ctx: Octets, msg: Octets): Octets
    requires FieldFacts() && OnCurve(b) && |ctx| <= 255
  {
    var s, r := SecretScalar(h, seed), Nonce(h, seed, phflag, ctx, msg);
    EncodedMultiple(r, b);
    SignWith(h, s, r, Encode(SMul(r, b)), pub, phflag, ctx, msg)
  }

  ghost function Sign(h: HashFunction, b: Point, seed: Octets, phflag: int, ctx: Octets, msg: Octets): Octets
    requires FieldFacts() && OnCurve(b) && |ctx| <= 255
  {
    EncodedMultiple(SecretScalar(h, seed), b);
    SignFor(h, b, seed, PublicKey(h, b, seed), phflag, ctx, msg)
  }

  function FourTimes(p: Point): Point {
    Twice(Twice(p))
  }

  /** The cofactored equation [4][S]B = [4](R + [k]A), with k unreduced. */
  function GroupEquation(b: Point, s: nat, r: Point, k: nat, a: Point): bool {
    FourTimes(SMul(s, b)) == FourTimes(Curve.Add(r, SMul(k, a)))
  }

  predicate Verify(h: HashFunction, b: Point, sig: Octets, pub: Octets, phflag: int, ctx: Octets, msg: Octets) {
    && |sig| == 114 && |pub| == 57 && |ctx| <= 255
    && Number(sig[57..]) < L && Decode(pub).Some? && Decode(sig[..57]).Some?
    && GroupEquation(b, Number(sig[57..]), Decode(sig[..57]).value,
                     Challenge(h, phflag, ctx, sig[..57], pub, msg), Decode(pub).value)
  }

  // ---------------------------------------------------------------- group lemmas

  lemma OrderVanishes(q: nat, m: nat, n: nat, p: Point)
    requires GroupFacts() && OnCurve(p) && SMul(m, p) == Identity && n == q * m
    ensures SMul(n, p) == Identity
  {
    SMulMul(q, m, p);
    SMulMul(q, 0, p);
  }

  /** Multiples that differ by n = q m, where m P = O, are equal. */
  lemma SameMultiple(x: int, y: int, n: nat, q: nat, m: nat, a: Point)
    requires GroupFacts() && OnCurve(a) && SMul(m, a) == Identity && n == q * m && x == n + y
    ensures SMul(x, a) == SMul(y, a)
  {
    OrderVanishes(q, m, n, a);
    AddsNothing(n, y, a);
  }

  lemma AddsNothing(n: nat, y: int, a: Point)
    requires GroupFacts() && OnCurve(a) && SMul(n, a) == Identity
    ensures SMul(n + y, a) == SMul(y, a)
  {
    SMulAdd(n, y, a);
    SMulOnCurve(y, a);
    AddIdentity(SMul(y, a));
  }

  /** Scalars count modulo any m with m P = O. */
  lemma SMulModulo(n: nat, m: nat, p: Point)
    requires GroupFacts() && OnCurve(p) && m > 0 && SMul(m, p) == Identity
    ensures SMul(n % m, p) == SMul(n, p)
  {
    QuotientNat(n, m);
    ModuloAt(n, n % m, (n / m) * m, n / m, m, p);
  }

  lemma ModuloAt(n: nat, r: nat, t: nat, q: nat, m: nat, p: Point)
    requires GroupFacts() && OnCurve(p) && SMul(m, p) == Identity && t == q * m && n == t + r
    ensures SMul(r, p) == SMul(n, p)
  {
    OrderVanishes(q, m, t, p);
    AddsNothing(t, r, p);
  }

  lemma QuotientNat(n: nat, m: nat)
    requires m > 0
    ensures n / m >= 0 && (n / m) * m >= 0 && n == (n / m) * m + n % m
  {
    if n / m < 0 {
      MulMonotone(n / m, -1, m);
    }
  }

  lemma TwiceAdd(x: Point, y: Point)
    requires GroupFacts() && OnCurve(x) && OnCurve(y)
    ensures Twice(Curve.Add(x, y)) == Curve.Add(Twice(x), Twice(y))
    ensures OnCurve(Twice(x)) && OnCurve(Twice(y))
  {
    AddOnCurve(x, y);
    AddOnCurve(x, x);
    AddOnCurve(y, y);
    AddOnCurve(y, x);
    assert AssociativeAt(x, y, Curve.Add(x, y));
    assert AssociativeAt(y, x, y);
    AddCommutes(x, y);
    assert AssociativeAt(x, y, y);
    assert AssociativeAt(x, x, Curve.Add(y, y));
  }

  lemma FourTimesAdd(x: Point, y: Point)
    requires GroupFacts() && OnCurve(x) && OnCurve(y)
    ensures FourTimes(Curve.Add(x, y)) == Curve.Add(FourTimes(x), FourTimes(y))
    ensures OnCurve(FourTimes(x)) && OnCurve(FourTimes(y))
  {
    TwiceAdd(x, y);
    TwiceAdd(Twice(x), Twice(y));
  }

  lemma FourTimesMultiple(n: int, p: Point)
    requires GroupFacts() && OnCurve(p)
    ensures FourTimes(SMul(n, p)) == SMul(4 * n, p)
  {
    SMulAdd(n, n, p);
    SMulAdd(2 * n, 2 * n, p);
  }

  lemma FourfoldQuotient(q: nat, k: nat, r: nat)
    requires k == q * L + r
    ensures q * (4 * L) >= 0 && 4 * k == q * (4 * L) + 4 * r
  {
  }

  /** In a group of exponent dividing 4 L, k mod L serves for k under the factor 4. */
  lemma ReducedChallenge(k: nat, a: Point)
    requires GroupFacts() && OnCurve(a) && SMul(4 * L, a) == Identity
    ensures FourTimes(SMul(k % L, a)) == FourTimes(SMul(k, a))
  {
    FourTimesMultiple(k % L, a);
    FourTimesMultiple(k, a);
    QuotientNat(k, L);
    FourfoldQuotient(k / L, k, k % L);
    SameMultiple(4 * k, 4 * (k % L), (k / L) * (4 * L), k / L, 4 * L, a);
  }

  lemma ReducedEquation(b: Point, s: nat, r: Point, k: nat, a: Point)
    requires GroupFacts() && OnCurve(b) && OnCurve(r) && OnCurve(a) && SMul(4 * L, a) == Identity
    ensures GroupEquation(b, s, r, k % L, a) <==> GroupEquation(b, s, r, k, a)
  {
    ReducedChallenge(k, a);
    SMulOnCurve(k, a);
    SMulOnCurve(k % L, a);
    FourTimesAdd(r, SMul(k, a));
    FourTimesAdd(r, SMul(k % L, a));
  }

  lemma DifferenceZero(x: Point, y: Point)
    requires GroupFacts() && OnCurve(x) && OnCurve(y)
    ensures Curve.Add(x, Curve.Neg(y)) == Identity <==> x == y
  {
    NegOnCurve(y);
    AddInverse(y);
    if Curve.Add(x, Curve.Neg(y)) == Identity {
      CancelRight(x, y, Curve.Neg(y));
    }
  }

  lemma FourTimesNeg(x: Point)
    requires GroupFacts() && OnCurve(x)
    ensures OnCurve(Curve.Neg(x)) && FourTimes(Curve.Neg(x)) == Curve.Neg(FourTimes(x))
  {
    NegOnCurve(x);
    NegAdd(x, x);
    AddOnCurve(x, x);
    NegAdd(Twice(x), Twice(x));
  }

  /** What the code tests: [4]([S]B - [k]A - R) is the identity. */
  lemma CodeEquation(b: Point, s: nat, r: Point, k: nat, a: Point)
    requires GroupFacts() && OnCurve(b) && OnCurve(r) && OnCurve(a)
    ensures OnCurve(Curve.Neg(a)) && OnCurve(Curve.Neg(r))
    ensures FourTimes(Curve.Add(Curve.Add(SMul(s, b), SMul(k, Curve.Neg(a))), Curve.Neg(r))) == Identity
       <==> GroupEquation(b, s, r, k, a)
  {
    var x, y := SMul(s, b), Curve.Add(r, SMul(k, a));
    SMulOnCurve(s, b);
    SMulOnCurve(k, a);
    AddOnCurve(r, SMul(k, a));
    NegatedMultiple(k, a);
    NegOnCurve(a);
    NegOnCurve(r);
    NegOnCurve(y);
    NegOnCurve(SMul(k, a));
    NegAdd(r, SMul(k, a));
    assert AssociativeAt(x, Curve.Neg(SMul(k, a)), Curve.Neg(r));
    FourTimesAdd(x, Curve.Neg(y));
    FourTimesNeg(y);
    FourTimesAdd(x, y);
    DifferenceZero(FourTimes(x), FourTimes(y));
  }

  lemma {:induction false} NegatedMultiple(k: nat, a: Point)
    requires GroupFacts() && OnCurve(a)
    ensures SMul(k, Curve.Neg(a)) == Curve.Neg(SMul(k, a))
  {
    NegOnCurve(a);
    if k == 0 {
      NegIdentity();
    } else {
      NegatedMultiple(k - 1, a);
      SMulOnCurve(k - 1, a);
      NegOnCurve(SMul(k - 1, a));
      NegAdd(SMul(k - 1, a), a);
      AddCommutes(Curve.Neg(a), Curve.Neg(SMul(k - 1, a)));
    }
  }

  // ---------------------------------------------------------------- signatures verify

  ghost predicate OrderAt(b: Point, n: int) {
    SMul(n, b) == Identity
  }

  ghost predicate ExponentAt(p: Point) {
    OnCurve(p) ==> OrderAt(p, 4 * L)
  }

  /** Hypothesis: the group of curve points has exponent dividing 4 L. */
  ghost predicate Exponent() {
    forall p: Point :: ExponentAt(p)
  }

  lemma OrderFits(n: nat)
    requires n < L
    ensures n < Pow(256, 57) && Number(ToDigits(256, n, 57)) == n
  {
    ByteTable();
    ValBounds(256, ORDER_BYTES);
    ToDigitsValue(256, n, 57);
  }

  lemma ResponseStep(k: nat, s: nat, r: nat)
    ensures k * s + r == ((k / L) * s) * L + ((k % L) * s + r) && (k / L) * s >= 0 && (k % L) * s >= 0
  {
    QuotientNat(k, L);
    MulMonotone(0, k / L, s);
    MulMonotone(0, k % L, s);
    assert ((k / L) * L + k % L) * s == ((k / L) * L) * s + (k % L) * s;
    assert ((k / L) * L) * s == ((k / L) * s) * L;
  }

  lemma ResponseAt(b: Point, s: nat, r: nat, k: nat, m: nat, x: nat, q: nat, n: nat)
    requires GroupFacts() && OnCurve(b) && OrderAt(b, L) && m == k * s && n == q * L && m + r == n + x
    ensures SMul(x % L, b) == Curve.Add(SMul(r, b), SMul(k, SMul(s, b)))
  {
    SMulModulo(x, L, b);
    SameMultiple(m + r, x, n, q, L, b);
    SMulAdd(m, r, b);
    SMulMul(k, s, b);
    AddCommutes(SMul(m, b), SMul(r, b));
  }

  /** S B = R + k A for S = (r + k s) mod L, R = r B and A = s B. */
  lemma Response(b: Point, s: nat, r: nat, k: nat)
    requires GroupFacts() && OnCurve(b) && OrderAt(b, L)
    ensures (k % L) * s + r >= 0
    ensures SMul(((k % L) * s + r) % L, b) == Curve.Add(SMul(r, b), SMul(k, SMul(s, b)))
  {
    ResponseStep(k, s, r);
    MulMonotone(0, k, s);
    ResponseAt(b, s, r, k, k * s, (k % L) * s + r, (k / L) * s, ((k / L) * s) * L);
  }

  /** The checks of `Verify`, one by one. */
  lemma VerifyChecks(h: HashFunction, b: Point, sig: Octets, pub: Octets, phflag: int, ctx: Octets, msg: Octets,
                     s: nat, r: Point, a: Point)
    requires |sig| == 114 && |pub| == 57 && |ctx| <= 255 && Number(sig[57..]) == s < L
    requires Decode(pub) == Some(a) && Decode(sig[..57]) == Some(r)
    requires SMul(s, b) == Curve.Add(r, SMul(Challenge(h, phflag, ctx, sig[..57], pub, msg), a))
    ensures Verify(h, b, sig, pub, phflag, ctx, msg)
  {
  }

  /** Every signature verifies under the public key of its seed, for the same flag, context and
      message. */
  lemma SignatureVerifies(h: HashFunction, b: Point, seed: Octets, phflag: int, ctx: Octets, msg: Octets)
    requires GroupFacts() && OnCurve(b) && OrderAt(b, L) && |ctx| <= 255
    ensures Digits(256, PublicKey(h, b, seed))
    ensures Verify(h, b, Sign(h, b, seed, phflag, ctx, msg), PublicKey(h, b, seed), phflag, ctx, msg)
  {
    var s, r := SecretScalar(h, seed), Nonce(h, seed, phflag, ctx, msg);
    EncodedMultiple(s, b);
    EncodedMultiple(r, b);
    SignedWith(h, b, s, r, phflag, ctx, msg);
  }

  /** The guard of `Responds`, which keeps its product out of other proofs; see Curve.Unfold. */
  predicate Same(x: int, y: int) {
    x == y
  }

  /** x is the response scalar to k. */
  ghost predicate Responds(x: nat, k: nat, s: nat, r: nat) {
    forall y: nat {:trigger Same(x, y)} :: Same(x, y) ==> y == (k % L * s + r) % L
  }

  lemma RespondsTo(b: Point, s: nat, r: nat, k: nat) returns (x: nat)
    requires GroupFacts() && OnCurve(b) && OrderAt(b, L)
    ensures Responds(x, k, s, r) && x < L
    ensures SMul(x, b) == Curve.Add(SMul(r, b), SMul(k, SMul(s, b)))
  {
    Response(b, s, r, k);
    x := (k % L * s + r) % L;
  }

  lemma SignedWith(h: HashFunction, b: Point, s: nat, r: nat, phflag: int, ctx: Octets, msg: Octets)
    requires GroupFacts() && OnCurve(b) && OrderAt(b, L) && |ctx| <= 255
    requires Digits(256, Encode(SMul(r, b))) && Digits(256, Encode(SMul(s, b)))
    ensures Verify(h, b, SignWith(h, s, r, Encode(SMul(r, b)), Encode(SMul(s, b)), phflag, ctx, msg),
                   Encode(SMul(s, b)), phflag, ctx, msg)
  {
    var rEnc: Octets, pub: Octets := Encode(SMul(r, b)), Encode(SMul(s, b));
    var k := Challenge(h, phflag, ctx, rEnc, pub, msg);
    var x := RespondsTo(b, s, r, k);
    SMulOnCurve(s, b);
    SMulOnCurve(r, b);
    DecodeEncode(SMul(s, b));
    DecodeEncode(SMul(r, b));
    SignedPoints(h, b, s, r, x, k, SMul(r, b), rEnc, SMul(s, b), pub, phflag, ctx, msg);
  }

  lemma SignedPoints(h: HashFunction, b: Point, s: nat, r: nat, x: nat, k: nat, q: Point, rEnc: Octets, a: Point, pub: Octets,
                     phflag: int, ctx: Octets, msg: Octets)
    requires |ctx| <= 255 && |rEnc| == 57 && |pub| == 57 && Decode(pub) == Some(a) && Decode(rEnc) == Some(q)
    requires k == Challenge(h, phflag, ctx, rEnc, pub, msg) && Responds(x, k, s, r) && x < L
    requires SMul(x, b) == Curve.Add(q, SMul(k, a))
    ensures Verify(h, b, SignWith(h, s, r, rEnc, pub, phflag, ctx, msg), pub, phflag, ctx, msg)
  {
    assert Same(x, x);
    SignatureParts(h, s, r, rEnc, pub, phflag, ctx, msg);
    Assemble(h, b, SignWith(h, s, r, rEnc, pub, phflag, ctx, msg), x, k, q, rEnc, a, pub, phflag, ctx, msg);
  }

  lemma Assemble(h: HashFunction, b: Point, sig: Octets, x: nat, k: nat, q: Point, rEnc: Octets, a: Point, pub: Octets,
                 phflag: int, ctx: Octets, msg: Octets)
    requires |ctx| <= 255 && |rEnc| == 57 && |pub| == 57 && Decode(pub) == Some(a) && Decode(rEnc) == Some(q)
    requires k == Challenge(h, phflag, ctx, rEnc, pub, msg) && x < L && SMul(x, b) == Curve.Add(q, SMul(k, a))
    requires |sig| == 114 && sig[..57] == rEnc && sig[57..] == ToDigits(256, x, 57)
    ensures Verify(h, b, sig, pub, phflag, ctx, msg)
  {
    OrderFits(x);
    VerifyChecks(h, b, sig, pub, phflag, ctx, msg, x, q, a);
  }

  lemma SignatureParts(h: HashFunction, s: nat, r: nat, rEnc: Octets, pub: Octets, phflag: int, ctx: Octets, msg: Octets)
    requires |rEnc| == 57 && |ctx| <= 255
    ensures var sig := SignWith(h, s, r, rEnc, pub, phflag, ctx, msg);
      |sig| == 114 && sig[..57] == rEnc
      && sig[57..] == ResponseOctets(Challenge(h, phflag, ctx, rEnc, pub, msg) % L, s, r)
  {
  }
}
