/** Ed448 and Ed448ph on the fast layers: key expansion, public key, signing and verification.
    Each is proved equal to the reference functions of Ed448Spec. */
module Ed448 {
  import opened Arith
  import opened Congruence
  import opened Radix
  import opened Words
  import opened Sponge
  import opened Order
  import opened FieldOps
  import opened Curve
  import opened Group
  import opened Extended
  import opened Encoding
  import opened Ge448
  import opened GeSelect
  import opened Ed448Spec
  import GeScalar
  import GeBytes
  import Sc448
  import Shake256

  const LIMB: int := 0x1000_0000

  /** The integer a scalar's limbs hold. */
  function Scalar(a: seq<int>): int {
    Val(LIMB, a)
  }

  ghost predicate Setting(b: Point, tbl: seq<int>) {
    GroupFacts() && OnCurve(b) && OrderAt(b, L) && BaseTable(tbl, b)
  }

  // ---------------------------------------------------------------- hashing

  /** The slices an absorb list names, joined. */
  function Slices(parts: seq<(Octets, nat, nat)>): Octets
    requires forall i :: 0 <= i < |parts| ==> parts[i].1 + parts[i].2 <= |parts[i].0|
  {
    if |parts| == 0 then []
    else
      var p := parts[|parts| - 1];
      Slices(parts[..|parts| - 1]) + p.0[p.1..p.1 + p.2]
  }

  method AbsorbDom4(hash: Shake256.Shake, phflag: int, ctx: Octets)
    requires hash.Absorbing() && |ctx| <= 255
    modifies hash`pos, hash`message, hash.state
    ensures hash.Absorbing() && hash.message == old(hash.message) + Dom4(phflag, ctx)
  {
    hash.Absorb(SIG_ED448);
    hash.Absorb([if phflag == 0 then 0 else 1, |ctx|]);
    hash.Absorb(ctx);
    assert SIG_ED448 + [if phflag == 0 then 0 else 1, |ctx|] + ctx == Dom4(phflag, ctx);
  }

  method AbsorbParts(hash: Shake256.Shake, parts: seq<(Octets, nat, nat)>)
    requires hash.Absorbing()
    requires forall i :: 0 <= i < |parts| ==> parts[i].1 + parts[i].2 <= |parts[i].0|
    modifies hash`pos, hash`message, hash.state
    ensures hash.Absorbing() && hash.message == old(hash.message) + Slices(parts)
  {
    for i := 0 to |parts|
      invariant hash.Absorbing() && hash.message == old(hash.message) + Slices(parts[..i])
    {
      hash.AbsorbSub(parts[i].0, parts[i].1, parts[i].2);
      assert parts[..i + 1][..i] == parts[..i];
    }
    assert parts[..|parts|] == parts;
  }

  /** SHAKE256(dom4 || parts, 114) */
  method HashParts(f: Permutation, phflag: int, ctx: Octets, parts: seq<(Octets, nat, nat)>) returns (digest: seq<int>)
    requires |ctx| <= 255
    requires forall i :: 0 <= i < |parts| ==> parts[i].1 + parts[i].2 <= |parts[i].0|
    ensures digest == Shake(f)(Dom4(phflag, ctx) + Slices(parts))
  {
    var hash := new Shake256.Shake(f);
    AbsorbDom4(hash, phflag, ctx);
    AbsorbParts(hash, parts);
    ghost var data := Dom4(phflag, ctx) + Slices(parts);
    assert hash.message == data;
    hash.Finalize();
    digest := Shake256.SqueezeOnce(hash, data, 114);
  }

  /** The hash as a scalar modulo L. */
  method HashToScalar(f: Permutation, phflag: int, ctx: Octets, parts: seq<(Octets, nat, nat)>, ghost data: Octets)
    returns (r: array<int>)
    requires |ctx| <= 255
    requires forall i :: 0 <= i < |parts| ==> parts[i].1 + parts[i].2 <= |parts[i].0|
    requires data == Dom4(phflag, ctx) + Slices(parts)
    ensures fresh(r) && r.Length == 16 && Sc448.Reduced(r[..])
    ensures Scalar(r[..]) == Number(Shake(f)(data)) % L
  {
    var digest := HashParts(f, phflag, ctx, parts);
    r := new int[16];
    Sc448.OfDigest(r, digest);
  }

  lemma SlicesSnoc(parts: seq<(Octets, nat, nat)>, p: (Octets, nat, nat))
    requires forall i :: 0 <= i < |parts| ==> parts[i].1 + parts[i].2 <= |parts[i].0|
    requires p.1 + p.2 <= |p.0|
    ensures Slices(parts + [p]) == Slices(parts) + p.0[p.1..p.1 + p.2]
  {
    assert (parts + [p])[..|parts|] == parts;
  }

  lemma ThreeSlices(dom: Octets, a: Octets, b: Octets, c: Octets)
    ensures dom + Slices([(a, 0, |a|), (b, 0, |b|), (c, 0, |c|)]) == dom + a + b + c
  {
    var p: (Octets, nat, nat), q: (Octets, nat, nat), r: (Octets, nat, nat) := (a, 0, |a|), (b, 0, |b|), (c, 0, |c|);
    SlicesSnoc([], p);
    SlicesSnoc([p], q);
    SlicesSnoc([p, q], r);
    assert [p] + [q] == [p, q] && [p, q] + [r] == [p, q, r] && [] + [p] == [p];
    assert a[0..|a|] == a && b[0..|b|] == b && c[0..|c|] == c;
    assert Slices([p]) == a;
  }

  lemma TwoSlices(dom: Octets, h: Octets, off: nat, len: nat, c: Octets)
    requires off + len == |h|
    ensures dom + Slices([(h, off, len), (c, 0, |c|)]) == dom + h[off..] + c
  {
    var p: (Octets, nat, nat), q: (Octets, nat, nat) := (h, off, len), (c, 0, |c|);
    SlicesSnoc([], p);
    SlicesSnoc([p], q);
    assert [p] + [q] == [p, q] && [] + [p] == [p];
    assert c[0..|c|] == c && h[off..off + len] == h[off..];
    assert Slices([p]) == h[off..];
  }

  // ---------------------------------------------------------------- keys

  /** The pruned secret scalar modulo L, and the hash whose second half is the nonce prefix. */
  method Expand(f: Permutation, seed: Octets) returns (s: array<int>, h: seq<int>)
    ensures fresh(s) && s.Length == 16 && Sc448.Reduced(s[..]) && Scalar(s[..]) == SecretScalar(Shake(f), seed) % L
    ensures Digits(256, h) && |h| == 114 && h[57..] == Prefix(Shake(f), seed)
  {
    h := Shake256.Digest(f, seed, 114);
    ghost var p := Pruned(h);
    PruneBounds(h[0]);
    PruneBounds(h[55]);
    h := h[0 := Land(h[0], 0xfc)];
    h := h[55 := Lor(h[55], 0x80)];
    h := h[56 := 0];
    assert h[..57] == p;
    var wide := h[..57] + seq(57, _ => 0);
    Sc448.PaddedValue(p, 57);
    s := new int[16];
    Sc448.OfDigest(s, wide);
  }

  /** Encoded n B for a reduced scalar that is n modulo L. */
  method EncodedBase(a: array<int>, tbl: seq<int>, ghost n: nat, ghost b: Point) returns (enc: seq<int>)
    requires Setting(b, tbl) && a.Length == 16 && Sc448.Reduced(a[..]) && Scalar(a[..]) == n % L
    ensures enc == Encode(SMul(n, b)) && Digits(256, enc)
  {
    var h := new Ge();
    OrderShape();
    SMulModulo(n, L, b);
    EncodedMultiple(n, b);
    GeScalar.ScalarmultBase(h, a, tbl, b);
    enc := GeBytes.ToBytes(h, SMul(n, b));
  }

  /** `ed448_public` */
  method Public(f: Permutation, seed: Octets, tbl: seq<int>, ghost b: Point) returns (ok: bool, pub: seq<int>)
    requires Setting(b, tbl)
    ensures ok <==> |seed| == 57
    ensures ok ==> pub == PublicKey(Shake(f), b, seed)
  {
    if |seed| != 57 {
      return false, [];
    }
    var s, h := Expand(f, seed);
    pub := EncodedBase(s, tbl, SecretScalar(Shake(f), seed), b);
    ok := true;
  }

  // ---------------------------------------------------------------- signing

  /** S = (k s + r) mod L does not change when s is first reduced modulo L. */
  lemma ReducedResponse(k: int, s: int, r: int)
    ensures MulAddMod(k, s % L, r) == (k * s + r) % L
  {
    CongMod(s, L);
    CongRefl(k, L);
    CongRefl(r, L);
    CongMul(k, k, s % L, s, L);
    CongAdd(k * (s % L), k * s, r, r, L);
    CongIff(k * (s % L) + r, k * s + r, L);
  }

  /** Octets 57 to 113: the response scalar. The ghost numbers are the three scalars. */
  method Respond(out: array<int>, k: array<int>, s: array<int>, r: array<int>,
                 ghost challenge: nat, ghost secret: nat, ghost nonce: nat)
    requires out.Length == 114 && k.Length == s.Length == r.Length == 16
    requires out != k && out != s && out != r
    requires Sc448.Reduced(k[..]) && Sc448.Reduced(s[..]) && Sc448.Reduced(r[..])
    requires Scalar(k[..]) == challenge && Scalar(s[..]) == secret % L && Scalar(r[..]) == nonce
    modifies out
    ensures out[..57] == old(out[..57])
    ensures out[57..] == ResponseOctets(challenge, secret, nonce)
  {
    var big := new int[16];
    Sc448.MulAdd(big, k, s, r);
    ReducedResponse(challenge, secret, nonce);
    MulMonotone(0, challenge, secret);
    ghost var head := out[..57];
    Sc448.ToBytes(out, 57, big);
    assert out[..57] == head;
    assert out[57..] == out[57..57 + 57];
  }

  /** r = SHAKE256(dom4 || prefix || msg) mod L */
  method NonceScalar(f: Permutation, h: Octets, phflag: int, ctx: Octets, msg: Octets, ghost seed: Octets)
    returns (r: array<int>)
    requires |h| == 114 && |ctx| <= 255 && h[57..] == Prefix(Shake(f), seed)
    ensures fresh(r) && r.Length == 16 && Sc448.Reduced(r[..])
    ensures Scalar(r[..]) == Nonce(Shake(f), seed, phflag, ctx, msg) < L
  {
    ghost var prefix := Prefix(Shake(f), seed);
    TwoSlices(Dom4(phflag, ctx), h, 57, 57, msg);
    r := HashToScalar(f, phflag, ctx, [(h, 57, 57), (msg, 0, |msg|)], Dom4(phflag, ctx) + prefix + msg);
  }

  /** R = r B, encoded into octets 0 to 56. */
  method Commit(out: array<int>, r: array<int>, tbl: seq<int>, ghost n: nat, ghost b: Point) returns (rEnc: seq<int>)
    requires Setting(b, tbl) && out.Length == 114 && out != r
    requires r.Length == 16 && Sc448.Reduced(r[..]) && Scalar(r[..]) == n < L
    modifies out
    ensures rEnc == out[..57] == Encode(SMul(n, b)) && Digits(256, rEnc)
  {
    QuotientUnique(n, L, 0, n);
    rEnc := EncodedBase(r, tbl, n, b);
    forall i | 0 <= i < 57 {
      out[i] := rEnc[i];
    }
    assert out[..57] == rEnc;
  }

  /** k = SHAKE256(dom4 || R || A || msg) mod L */
  method ChallengeScalar(f: Permutation, rEnc: Octets, pub: Octets, phflag: int, ctx: Octets, msg: Octets)
    returns (k: array<int>)
    requires |ctx| <= 255
    ensures fresh(k) && k.Length == 16 && Sc448.Reduced(k[..])
    ensures Scalar(k[..]) == Challenge(Shake(f), phflag, ctx, rEnc, pub, msg) % L
  {
    ThreeSlices(Dom4(phflag, ctx), rEnc, pub, msg);
    k := HashToScalar(f, phflag, ctx, [(rEnc, 0, |rEnc|), (pub, 0, |pub|), (msg, 0, |msg|)],
                      Dom4(phflag, ctx) + rEnc + pub + msg);
  }

  lemma Halves(out: seq<int>, a: seq<int>, b: seq<int>)
    requires |a| <= |out| && out[..|a|] == a && out[|a|..] == b
    ensures out == a + b
  {
    assert out == out[..|a|] + out[|a|..];
  }

  lemma SignatureIs(out: seq<int>, h: HashFunction, s: nat, r: nat, k: nat, rEnc: Octets, pub: Octets,
                    phflag: int, ctx: Octets, msg: Octets)
    requires |out| == 114 && |rEnc| == 57 && |ctx| <= 255 && out[..57] == rEnc
    requires k == Challenge(h, phflag, ctx, rEnc, pub, msg) % L && out[57..] == ResponseOctets(k, s, r)
    ensures out == SignWith(h, s, r, rEnc, pub, phflag, ctx, msg)
  {
    Halves(out, rEnc, ResponseOctets(k, s, r));
  }

  /** The three scalars and the two halves of the signature. */
  method SignParts(out: array<int>, f: Permutation, seed: Octets, pub: Octets, phflag: int, ctx: Octets, msg: Octets,
                   tbl: seq<int>, ghost secret: nat, ghost n: nat, ghost b: Point) returns (ghost rEnc: Octets)
    requires Setting(b, tbl) && out.Length == 114 && |ctx| <= 255
    requires secret == SecretScalar(Shake(f), seed) && n == Nonce(Shake(f), seed, phflag, ctx, msg)
    modifies out
    ensures rEnc == Encode(SMul(n, b)) && out[..] == SignWith(Shake(f), secret, n, rEnc, pub, phflag, ctx, msg)
  {
    var s, h := Expand(f, seed);
    var r := NonceScalar(f, h, phflag, ctx, msg, seed);
    var enc := Commit(out, r, tbl, n, b);
    rEnc := enc;
    FinishSignature(out, f, s, r, enc, pub, phflag, ctx, msg, secret);
  }

  method FinishSignature(out: array<int>, f: Permutation, s: array<int>, r: array<int>, rEnc: Octets, pub: Octets,
                         phflag: int, ctx: Octets, msg: Octets, ghost secret: nat)
    requires out.Length == 114 && s.Length == r.Length == 16 && out != s && out != r && |rEnc| == 57 && |ctx| <= 255
    requires Sc448.Reduced(s[..]) && Sc448.Reduced(r[..]) && Scalar(s[..]) == secret % L && Scalar(r[..]) >= 0
    requires out[..57] == rEnc
    modifies out
    ensures out[..] == SignWith(Shake(f), secret, old(Scalar(r[..])), rEnc, pub, phflag, ctx, msg)
  {
    var k := ChallengeScalar(f, rEnc, pub, phflag, ctx, msg);
    ghost var challenge, nonce := Challenge(Shake(f), phflag, ctx, rEnc, pub, msg) % L, Scalar(r[..]);
    Respond(out, k, s, r, challenge, secret, nonce);
    SignatureIs(out[..], Shake(f), secret, nonce, challenge, rEnc, pub, phflag, ctx, msg);
  }

  /** `ed448_sign`. The public key is an argument, hashed as given: the signature is the one made
      for that key, whether or not it belongs to the seed. */
  method Sign(out: array<int>, f: Permutation, seed: Octets, pub: Octets, phflag: int, ctx: Octets, msg: Octets,
              tbl: seq<int>, ghost b: Point) returns (ok: bool)
    requires Setting(b, tbl)
    modifies out
    ensures ok <==> out.Length == 114 && |seed| == 57 && |pub| == 57 && |ctx| <= 255
    ensures ok ==> out[..] == SignFor(Shake(f), b, seed, pub, phflag, ctx, msg)
    ensures !ok ==> out[..] == old(out[..])
  {
    if out.Length != 114 || |seed| != 57 || |pub| != 57 || |ctx| > 255 {
      return false;
    }
    ghost var rEnc := SignParts(out, f, seed, pub, phflag, ctx, msg, tbl, SecretScalar(Shake(f), seed),
                                Nonce(Shake(f), seed, phflag, ctx, msg), b);
    ok := true;
  }

  // ---------------------------------------------------------------- verification

  /** `ed448_verify`, once the three checks have passed: test [4]([S]B - [k]A - R). */
  method CheckEquation(s: array<int>, k: array<int>, a: Ge, r: Ge, tbl: seq<int>,
                       ghost p: Point, ghost q: Point, ghost b: Point) returns (ok: bool)
    requires Setting(b, tbl) && a.Is(p) && r.Is(q) && a != r && SMul(4 * L, p) == Identity
    requires s.Length == k.Length == 16 && Sc448.Reduced(s[..]) && Sc448.Reduced(k[..])
    requires 0 <= Scalar(s[..]) < L && 0 <= Scalar(k[..]) < L
    modifies a, r
    ensures ok <==> GroupEquation(b, Scalar(s[..]), q, Scalar(k[..]), p)
  {
    ghost var m, n := Scalar(s[..]), Scalar(k[..]);
    OrderShape();
    var x := new Ge();
    var y := new Ge();
    var c := new Ge();
    GeScalar.ScalarmultBase(x, s, tbl, b);
    a.Negate(a, p);
    GeScalar.Scalarmult(y, k, a, Curve.Neg(p));
    c.ToCached(y, SMul(n, Curve.Neg(p)));
    x.AddCached(x, c, SMul(m, b), SMul(n, Curve.Neg(p)));
    r.Negate(r, q);
    c.ToCached(r, Curve.Neg(q));
    ghost var sum := Curve.Add(SMul(m, b), SMul(n, Curve.Neg(p)));
    x.AddCached(x, c, sum, Curve.Neg(q));
    ok := CheckFourTimes(x, Curve.Add(sum, Curve.Neg(q)));
    CodeEquation(b, m, q, n, p);
  }

  /** Two doublings and the identity test. */
  method CheckFourTimes(x: Ge, ghost p: Point) returns (ok: bool)
    requires FieldFacts() && x.Is(p)
    modifies x
    ensures ok <==> FourTimes(p) == Identity
  {
    ForgetT(V(x.x), V(x.y), V(x.z), V(x.t), p);
    x.Double(x, true, p);
    x.Double(x, true, Twice(p));
    var r := GeBytes.IsIdentity(x, FourTimes(p));
    ok := r == 1;
  }

  lemma SlotScalar(sig: Octets)
    requires |sig| == 114
    ensures Number(sig[57..]) < L ==> Val(256, sig[57..][..56]) == Number(sig[57..])
  {
    var t := sig[57..];
    assert t == t[..56] + [t[56]];
    ValSnoc(256, t[..56], t[56]);
    ValBounds(256, t[..56]);
    FieldBytes();
    OrderShape();
    if t[56] >= 1 {
      Scale(t[56], Pow(256, 56));
    }
  }

  /** The response scalar, loaded from 56 of its 57 octets once it is known to be below L. */
  method LoadResponse(sig: Octets) returns (s: array<int>)
    requires |sig| == 114 && Number(sig[57..]) < L
    ensures fresh(s) && s.Length == 16 && Sc448.Reduced(s[..]) && Scalar(s[..]) == Number(sig[57..])
  {
    SlotScalar(sig);
    s := new int[16];
    Sc448.OfBytes(s, sig[57..113]);
    assert sig[57..113] == sig[57..][..56] && sig[57..113][..56] == sig[57..113];
  }

  /** `ed448_verify`: accepts exactly what the reference accepts, whose k is not reduced. */
  method Verify(f: Permutation, sig: Octets, pub: Octets, phflag: int, ctx: Octets, msg: Octets,
                tbl: seq<int>, ghost b: Point) returns (ok: bool)
    requires Setting(b, tbl) && Exponent()
    ensures ok <==> Ed448Spec.Verify(Shake(f), b, sig, pub, phflag, ctx, msg)
    ensures |sig| != 114 || |pub| != 57 || |ctx| > 255 ==> !ok
  {
    if |sig| != 114 || |pub| != 57 || |ctx| > 255 {
      return false;
    }
    var canonical := Sc448.IsCanonical(sig, 57);
    assert sig[57..114] == sig[57..];
    if canonical != 1 {
      return false;
    }
    var a := new Ge();
    var r := new Ge();
    var okA := GeBytes.OfBytes(a, pub);
    if okA != 1 {
      return false;
    }
    var okR := GeBytes.OfBytes(r, sig[..57]);
    if okR != 1 {
      return false;
    }
    ok := VerifyDecoded(f, sig, pub, phflag, ctx, msg, tbl, a, r, Decode(pub).value, Decode(sig[..57]).value, b);
  }

  method VerifyDecoded(f: Permutation, sig: Octets, pub: Octets, phflag: int, ctx: Octets, msg: Octets,
                       tbl: seq<int>, a: Ge, r: Ge, ghost p: Point, ghost q: Point, ghost b: Point) returns (ok: bool)
    requires Setting(b, tbl) && Exponent() && a.Is(p) && r.Is(q) && a != r
    requires |sig| == 114 && |ctx| <= 255 && Number(sig[57..]) < L
    modifies a, r
    ensures ok <==> GroupEquation(b, Number(sig[57..]), q, Challenge(Shake(f), phflag, ctx, sig[..57], pub, msg), p)
  {
    var k := ChallengeScalar(f, sig[..57], pub, phflag, ctx, msg);
    var s := LoadResponse(sig);
    assert ExponentAt(p);
    ok := CheckEquation(s, k, a, r, tbl, p, q, b);
    ReducedEquation(b, Number(sig[57..]), q, Challenge(Shake(f), phflag, ctx, sig[..57], pub, msg), p);
  }

  /** Signing with the fast code and verifying with the fast code succeeds. */
  method SignThenVerify(f: Permutation, seed: Octets, phflag: int, ctx: Octets, msg: Octets,
                        tbl: seq<int>, ghost b: Point) returns (ok: bool)
    requires Setting(b, tbl) && Exponent() && |seed| == 57 && |ctx| <= 255
    ensures ok
  {
    var derived, pub := Public(f, seed, tbl, b);
    SignatureVerifies(Shake(f), b, seed, phflag, ctx, msg);
    var out := new int[114];
    var signed := Sign(out, f, seed, pub, phflag, ctx, msg, tbl, b);
    ok := Verify(f, out[..], pub, phflag, ctx, msg, tbl, b);
  }
}
