/** Ed448 on octets and integers alone: the public key, the signature and the verdict of both
    backends, with every hashed string written out. */
module Ed448Octets {
  import opened Wrappers
  import opened Arith
  import opened Congruence
  import opened Radix
  import opened Words
  import opened Sponge
  import opened Order
  import opened Pruning
  import opened Curve
  import opened Group
  import opened Encoding
  import opened NativeShake
  import opened NativeGe
  import opened Ed448Spec
  import Ed448
  import NativeEd448

  // ---------------------------------------------------------------- the secret scalar

  /** Clearing bits 0 and 1, setting bit 447 and dropping octet 56. */
  lemma SecretValue(h: HashFunction, seed: Octets)
    ensures SecretScalar(h, seed) == TWO_447 + 4 * (Val(256, h(seed)[..56]) / 4 % TWO_445)
  {
    var d: Octets := h(seed);
    var s: Octets := d[..56];
    var p := [Land(s[0], 252)] + s[1..55] + [Lor(s[55], 128)];
    assert s[1..55] == d[1..55];
    assert Pruned(d) == p + [0];
    ValSnoc(256, p, 0);
    PrunedValue(s, p);
  }

  /** The secret scalar is a multiple of 4 between 2^447 and 2^448. */
  lemma SecretRange(h: HashFunction, seed: Octets)
    ensures TWO_447 <= SecretScalar(h, seed) < 2 * TWO_447 && SecretScalar(h, seed) % 4 == 0
  {
    SecretValue(h, seed);
    ClampedRange(SecretScalar(h, seed), Val(256, h(seed)[..56]) / 4);
  }

  // ---------------------------------------------------------------- the signature

  /** k s + n modulo L does not change when k and n are first reduced modulo L. */
  lemma ResponseResidue(k: nat, s: nat, n: nat)
    ensures (k % L) * s + n % L >= 0
    ensures ((k % L) * s + n % L) % L == (k * s + n) % L
  {
    MulMonotone(0, k % L, s);
    CongMod(k, L);
    CongMod(n, L);
    CongRefl(s, L);
    CongMul(k % L, k, s, s, L);
    CongAdd((k % L) * s, k * s, n % L, n, L);
    CongIff((k % L) * s + n % L, k * s + n, L);
  }

  lemma ResponseValue(k: nat, s: nat, n: nat, t: Octets)
    requires t == ResponseOctets(k % L, s, n % L)
    ensures |t| == 57 && Val(256, t) == (k * s + n) % L
  {
    ResponseResidue(k, s, n);
    OrderFits((k * s + n) % L);
  }

  /** The signature: with the hash n of the prefix and the message, R = n B, and S = k s + n
      modulo L for the secret scalar s and the hash k of R, the key and the message. */
  lemma SignatureOctets(h: HashFunction, b: Point, seed: Octets, pub: Octets, phflag: int, ctx: Octets, msg: Octets,
                        sig: Octets, flag: int) returns (first: Octets, second: Octets, k: nat, s: nat, n: nat)
    requires FieldFacts() && OnCurve(b) && |ctx| <= 255 && |pub| == 57
    requires sig == SignFor(h, b, seed, pub, phflag, ctx, msg) && flag == if phflag == 0 then 0 else 1
    ensures |sig| == 114 && |first| == 67 + |ctx| + |msg| && |second| == 124 + |ctx| + |msg|
    ensures first == [83, 105, 103, 69, 100, 52, 52, 56] + [flag, |ctx|] + ctx + h(seed)[57..] + msg
    ensures second == [83, 105, 103, 69, 100, 52, 52, 56] + [flag, |ctx|] + ctx + sig[..57] + pub + msg
    ensures k == Val(256, h(second)) && n == Val(256, h(first))
    ensures s == TWO_447 + 4 * (Val(256, h(seed)[..56]) / 4 % TWO_445)
    ensures sig[..57] == Encode(SMul(n % L, b)) && Val(256, sig[57..]) == (k * s + n) % L
  {
    var r := Nonce(h, seed, phflag, ctx, msg);
    s := SecretScalar(h, seed);
    EncodedMultiple(r, b);
    var rEnc: Octets := Encode(SMul(r, b));
    SignatureParts(h, s, r, rEnc, pub, phflag, ctx, msg);
    first := Dom4(phflag, ctx) + Prefix(h, seed) + msg;
    second := Dom4(phflag, ctx) + rEnc + pub + msg;
    k, n := Number(h(second)), Number(h(first));
    SecretValue(h, seed);
    ResponseValue(k, s, n, sig[57..]);
  }

  lemma Laid(x: Octets, flag: int, ctx: Octets, prefix: Octets, msg: Octets)
    requires x == [83, 105, 103, 69, 100, 52, 52, 56] + [flag, |ctx|] + ctx + prefix + msg && |prefix| == 57
    ensures |x| == 67 + |ctx| + |msg| && x[8] == flag && x[9] == |ctx|
    ensures x[10..10 + |ctx|] == ctx && x[10 + |ctx|..67 + |ctx|] == prefix && x[67 + |ctx|..] == msg
  {
  }

  /** What the signer hashes determines the flag, the context, the prefix and the message. */
  lemma HashedOnce(x: Octets, flag1: int, ctx1: Octets, prefix1: Octets, msg1: Octets,
                   flag2: int, ctx2: Octets, prefix2: Octets, msg2: Octets)
    requires |prefix1| == 57 && |prefix2| == 57
    requires x == [83, 105, 103, 69, 100, 52, 52, 56] + [flag1, |ctx1|] + ctx1 + prefix1 + msg1
    requires x == [83, 105, 103, 69, 100, 52, 52, 56] + [flag2, |ctx2|] + ctx2 + prefix2 + msg2
    ensures flag1 == flag2 && ctx1 == ctx2 && prefix1 == prefix2 && msg1 == msg2
  {
    Laid(x, flag1, ctx1, prefix1, msg1);
    Laid(x, flag2, ctx2, prefix2, msg2);
  }

  // ---------------------------------------------------------------- verification

  /** The order of B is exactly L. */
  ghost predicate ExactAt(b: Point, n: int) {
    SMul(n, b) == Identity ==> n % L == 0
  }

  /** Hypothesis: only multiples of L annihilate B. */
  ghost predicate ExactOrder(b: Point) {
    forall n: int :: ExactAt(b, n)
  }

  lemma SameMultiples(x: int, y: int, b: Point)
    requires GroupFacts() && OnCurve(b)
    ensures SMul(x, b) == SMul(y, b) <==> SMul(x - y, b) == Identity
  {
    SMulOnCurve(x, b);
    SMulOnCurve(y, b);
    SMulAdd(x, -y, b);
    SMulNeg(y, b);
    DifferenceZero(SMul(x, b), SMul(y, b));
  }

  lemma OrderOdd()
    ensures L % 4 == 3
  {
    OrderValue();
  }

  lemma FourthPart(q: int, l: int, m: int)
    requires l % 4 == 3 && 4 * m == l * q
    ensures q % 4 == 0
  {
    var h := l / 4;
    assert l * q == 4 * (h * q) + 3 * q;
  }

  /** 4 is invertible modulo L. */
  lemma FourCancels(m: int)
    ensures 4 * m % L == 0 <==> m % L == 0
  {
    OrderOdd();
    if m % L == 0 {
      var q := m / L;
      assert 4 * m == L * (4 * q) + 0;
      QuotientUnique(4 * m, L, 4 * q, 0);
    }
    if 4 * m % L == 0 {
      var q := 4 * m / L;
      FourthPart(q, L, m);
      assert L * q == 4 * (L * (q / 4));
      QuotientUnique(m, L, q / 4, 0);
    }
  }

  lemma MultiplesExact(m: int, b: Point)
    requires GroupFacts() && OnCurve(b) && OrderAt(b, L) && ExactOrder(b)
    ensures SMul(4 * m, b) == Identity <==> m % L == 0
  {
    FourCancels(m);
    assert ExactAt(b, 4 * m);
    if m % L == 0 {
      var q := 4 * m / L;
      assert 4 * m == q * L;
      SMulMul(q, L, b);
      SMulMul(q, 0, b);
    }
  }

  /** The cofactored equation, with its factor 4 on the scalars. */
  lemma EquationMeans(b: Point, s: nat, r: Point, k: nat, a: Point)
    requires GroupFacts() && OnCurve(b) && OnCurve(r) && OnCurve(a)
    ensures GroupEquation(b, s, r, k, a) <==> SMul(4 * s, b) == Curve.Add(SMul(4, r), SMul(4 * k, a))
  {
    SMulOnCurve(k, a);
    FourTimesAdd(r, SMul(k, a));
    FourTimesMultiple(s, b);
    FourTimesMultiple(k, a);
    DoubleIsTwice(r);
    FourTimesMultiple(1, r);
  }

  lemma ChallengeOf(h: HashFunction, phflag: int, ctx: Octets, r: Octets, pub: Octets, msg: Octets, data: Octets)
    requires |ctx| <= 255
    requires data == [83, 105, 103, 69, 100, 52, 52, 56] + [if phflag == 0 then 0 else 1, |ctx|] + ctx + r + pub + msg
    ensures Val(256, h(data)) == Challenge(h, phflag, ctx, r, pub, msg)
  {
    assert data == Dom4(phflag, ctx) + r + pub + msg;
  }

  /** Acceptance, on every input: S is below L, the key and R are encodings of curve points A and
      R, and [4 S] B = [4] R + [4 k] A for the hash k of the flag, context, R, key and message. */
  lemma VerdictMeans(h: HashFunction, b: Point, sig: Octets, pub: Octets, phflag: int, ctx: Octets, msg: Octets, data: Octets)
    requires GroupFacts() && OnCurve(b) && |sig| == 114 && |pub| == 57 && |ctx| <= 255
    requires data == [83, 105, 103, 69, 100, 52, 52, 56] + [if phflag == 0 then 0 else 1, |ctx|] + ctx + sig[..57] + pub + msg
    ensures Val(256, h(data)) >= 0 && Val(256, sig[57..]) >= 0
    ensures Ed448Spec.Verify(h, b, sig, pub, phflag, ctx, msg) <==>
      && Val(256, sig[57..]) < L
      && exists a: Point, r: Point :: OnCurve(a) && OnCurve(r) && Encode(a) == pub && Encode(r) == sig[..57]
           && SMul(4 * Val(256, sig[57..]), b) == Curve.Add(SMul(4, r), SMul(4 * Val(256, h(data)), a))
  {
    var s, k := Number(sig[57..]), Number(h(data));
    ChallengeOf(h, phflag, ctx, sig[..57], pub, msg, data);
    if Ed448Spec.Verify(h, b, sig, pub, phflag, ctx, msg) {
      var a, r := Decode(pub).value, Decode(sig[..57]).value;
      DecodeIff(pub, a);
      DecodeIff(sig[..57], r);
      EquationMeans(b, s, r, k, a);
    }
    if a: Point, r: Point :| OnCurve(a) && OnCurve(r) && Encode(a) == pub && Encode(r) == sig[..57]
                             && SMul(4 * s, b) == Curve.Add(SMul(4, r), SMul(4 * k, a)) {
      DecodeIff(pub, a);
      DecodeIff(sig[..57], r);
      EquationMeans(b, s, r, k, a);
    }
  }

  lemma SumOfMultiples(b: Point, x: int, y: int, z: int)
    requires GroupFacts() && OnCurve(b)
    ensures SMul(x, b) == Curve.Add(SMul(y, b), SMul(z, b)) <==> SMul(x - (y + z), b) == Identity
  {
    SMulAdd(y, z, b);
    SameMultiples(x, y + z, b);
  }

  lemma MultipleOfMultiple(m: int, n: int, b: Point, y: int)
    requires GroupFacts() && OnCurve(b) && y == m * n
    ensures SMul(m, SMul(n, b)) == SMul(y, b)
  {
    SMulMul(m, n, b);
  }

  lemma ProductEquation(b: Point, s: nat, r: nat, k: nat, a: nat, z: int)
    requires GroupFacts() && OnCurve(b) && z == k * a
    ensures GroupEquation(b, s, SMul(r, b), k, SMul(a, b)) <==> SMul(4 * s - (4 * r + 4 * z), b) == Identity
  {
    MultipleOfMultiple(k, a, b, z);
    SMulOnCurve(r, b);
    SMulOnCurve(z, b);
    FourTimesAdd(SMul(r, b), SMul(z, b));
    FourTimesMultiple(s, b);
    FourTimesMultiple(r, b);
    FourTimesMultiple(z, b);
    SumOfMultiples(b, 4 * s, 4 * r, 4 * z);
  }

  lemma VerdictOnPoints(h: HashFunction, b: Point, sig: Octets, pub: Octets, phflag: int, ctx: Octets, msg: Octets,
                        a: Point, r: Point, k: nat)
    requires |sig| == 114 && |pub| == 57 && |ctx| <= 255 && k == Challenge(h, phflag, ctx, sig[..57], pub, msg)
    requires Decode(pub) == Some(a) && Decode(sig[..57]) == Some(r)
    ensures Ed448Spec.Verify(h, b, sig, pub, phflag, ctx, msg) <==>
      Number(sig[57..]) < L && GroupEquation(b, Number(sig[57..]), r, k, a)
  {
  }

  lemma IntegerEquation(b: Point, s: nat, r: nat, k: nat, a: nat, z: int)
    requires GroupFacts() && OnCurve(b) && OrderAt(b, L) && ExactOrder(b) && z == k * a
    ensures GroupEquation(b, s, SMul(r, b), k, SMul(a, b)) <==> (s - r - z) % L == 0
  {
    ProductEquation(b, s, r, k, a, z);
    assert 4 * s - (4 * r + 4 * z) == 4 * (s - r - z);
    MultiplesExact(s - r - z, b);
  }

  lemma DecodedMultiple(n: int, b: Point, enc: Octets)
    requires FieldFacts() && OnCurve(b) && enc == Encode(SMul(n, b))
    ensures Decode(enc) == Some(SMul(n, b))
  {
    SMulOnCurve(n, b);
    DecodeEncode(SMul(n, b));
  }

  lemma VerdictInteger(h: HashFunction, b: Point, sig: Octets, pub: Octets, phflag: int, ctx: Octets, msg: Octets,
                       k: nat, a: nat, r: nat)
    requires GroupFacts() && OnCurve(b) && OrderAt(b, L) && ExactOrder(b) && |sig| == 114 && |pub| == 57 && |ctx| <= 255
    requires Decode(pub) == Some(SMul(a, b)) && Decode(sig[..57]) == Some(SMul(r, b))
    requires k == Challenge(h, phflag, ctx, sig[..57], pub, msg)
    ensures Ed448Spec.Verify(h, b, sig, pub, phflag, ctx, msg) <==>
      Number(sig[57..]) < L && (Number(sig[57..]) - r - k * a) % L == 0
  {
    VerdictOnPoints(h, b, sig, pub, phflag, ctx, msg, SMul(a, b), SMul(r, b), k);
    IntegerEquation(b, Number(sig[57..]), r, k, a, k * a);
  }

  /** For a key a B and R = r B the verdict is arithmetic: S is below L and S = r + k a modulo L. */
  lemma VerdictOnMultiples(h: HashFunction, b: Point, sig: Octets, pub: Octets, phflag: int, ctx: Octets, msg: Octets,
                           data: Octets, a: nat, r: nat)
    requires GroupFacts() && OnCurve(b) && OrderAt(b, L) && ExactOrder(b) && |sig| == 114 && |ctx| <= 255
    requires pub == Encode(SMul(a, b)) && sig[..57] == Encode(SMul(r, b))
    requires data == [83, 105, 103, 69, 100, 52, 52, 56] + [if phflag == 0 then 0 else 1, |ctx|] + ctx + sig[..57] + pub + msg
    ensures Ed448Spec.Verify(h, b, sig, pub, phflag, ctx, msg) <==>
      Val(256, sig[57..]) < L && (Val(256, sig[57..]) - r - Val(256, h(data)) * a) % L == 0
  {
    ChallengeOf(h, phflag, ctx, sig[..57], pub, msg, data);
    DecodedMultiple(a, b, pub);
    DecodedMultiple(r, b, sig[..57]);
    VerdictInteger(h, b, sig, pub, phflag, ctx, msg, Number(h(data)), a, r);
  }

  lemma ResponsesEqual(s: nat, t: nat, b: Point)
    requires GroupFacts() && OnCurve(b) && OrderAt(b, L) && ExactOrder(b) && s < L && t < L
    requires SMul(4 * s, b) == SMul(4 * t, b)
    ensures s == t
  {
    SameMultiples(4 * s, 4 * t, b);
    assert 4 * s - 4 * t == 4 * (s - t);
    MultiplesExact(s - t, b);
    CongIff(s - t, 0, L);
    CongRefl(t, L);
    CongAdd(s - t, 0, t, t, L);
    CongSmall(s, t, L);
  }

  /** Two accepted signatures with the same R, for the same key, flag, context and message, are
      the same signature, whatever the order of the key. */
  lemma AcceptedOnce(h: HashFunction, b: Point, sig: Octets, other: Octets, pub: Octets, phflag: int, ctx: Octets, msg: Octets)
    requires GroupFacts() && OnCurve(b) && OrderAt(b, L) && ExactOrder(b)
    requires Ed448Spec.Verify(h, b, sig, pub, phflag, ctx, msg) && Ed448Spec.Verify(h, b, other, pub, phflag, ctx, msg)
    requires sig[..57] == other[..57]
    ensures sig == other
  {
    var s, t := Number(sig[57..]), Number(other[57..]);
    FourTimesMultiple(s, b);
    FourTimesMultiple(t, b);
    ResponsesEqual(s, t, b);
    ValInjective(256, sig[57..], other[57..]);
    assert sig == sig[..57] + sig[57..] && other == other[..57] + other[57..];
  }

  // ---------------------------------------------------------------- the two backends

  ghost predicate Setting(b: Point, tbl: seq<int>, tables: seq<seq<Precomp>>, f: Permutation, g: LanePermutation) {
    Ed448.Setting(b, tbl) && NativeEd448.Setting(b, tables, f, g)
  }

  /** Both public keys are the encoded multiple of B by the pruned first half of the hash. */
  method PublicKeys(f: Permutation, g: LanePermutation, seed: Octets, tbl: seq<int>, tables: seq<seq<Precomp>>, ghost b: Point)
    returns (ocaml: seq<int>, native: seq<int>)
    requires Setting(b, tbl, tables, f, g) && |seed| == 57
    ensures ocaml == native == Encode(SMul(TWO_447 + 4 * (Val(256, Sponge.Shake256(f, seed, 114)[..56]) / 4 % TWO_445), b))
  {
    SecretValue(Shake(f), seed);
    var ok;
    ok, ocaml := Ed448.Public(f, seed, tbl, b);
    native := NativeEd448.Public(g, f, seed, tables, b);
  }

  /** As SignatureOctets, for SHAKE256. */
  lemma ShakeSignature(f: Permutation, b: Point, seed: Octets, pub: Octets, phflag: int, ctx: Octets, msg: Octets, sig: Octets)
    returns (first: Octets, second: Octets, k: nat, s: nat, n: nat)
    requires FieldFacts() && OnCurve(b) && |ctx| <= 255 && |pub| == 57 && 0 <= phflag <= 1
    requires sig == SignFor(Shake(f), b, seed, pub, phflag, ctx, msg)
    ensures |sig| == 114
    ensures first == [83, 105, 103, 69, 100, 52, 52, 56] + [phflag, |ctx|] + ctx + Sponge.Shake256(f, seed, 114)[57..] + msg
    ensures second == [83, 105, 103, 69, 100, 52, 52, 56] + [phflag, |ctx|] + ctx + sig[..57] + pub + msg
    ensures k == Val(256, Sponge.Shake256(f, second, 114)) && n == Val(256, Sponge.Shake256(f, first, 114))
    ensures s == TWO_447 + 4 * (Val(256, Sponge.Shake256(f, seed, 114)[..56]) / 4 % TWO_445)
    ensures sig[..57] == Encode(SMul(n % L, b)) && Val(256, sig[57..]) == (k * s + n) % L
  {
    first, second, k, s, n := SignatureOctets(Shake(f), b, seed, pub, phflag, ctx, msg, sig, phflag);
  }

  method SignBoth(f: Permutation, g: LanePermutation, seed: Octets, pub: Octets, phflag: int, ctx: Octets, msg: Octets,
                  tbl: seq<int>, tables: seq<seq<Precomp>>, ghost b: Point) returns (ocaml: seq<int>, native: seq<int>)
    requires Setting(b, tbl, tables, f, g) && |seed| == 57 && |pub| == 57 && |ctx| <= 255 && 0 <= phflag <= 1
    ensures ocaml == native == SignFor(Shake(f), b, seed, pub, phflag, ctx, msg)
  {
    var out := new int[114];
    var ok := Ed448.Sign(out, f, seed, pub, phflag, ctx, msg, tbl, b);
    ocaml := out[..];
    native := NativeEd448.Sign(g, f, seed, pub, phflag, ctx, msg, tables, b);
  }

  /** Both signatures, octet by octet: `first` and `second` are the two strings that are hashed,
      with the flag, the context, the prefix and R at their places. */
  method Signatures(f: Permutation, g: LanePermutation, seed: Octets, pub: Octets, phflag: int, ctx: Octets, msg: Octets,
                    tbl: seq<int>, tables: seq<seq<Precomp>>, ghost b: Point)
    returns (ocaml: seq<int>, native: seq<int>, ghost first: Octets, ghost second: Octets,
             ghost k: nat, ghost s: nat, ghost n: nat)
    requires Setting(b, tbl, tables, f, g) && |seed| == 57 && |pub| == 57 && |ctx| <= 255 && 0 <= phflag <= 1
    ensures ocaml == native && |ocaml| == 114
    ensures first == [83, 105, 103, 69, 100, 52, 52, 56] + [phflag, |ctx|] + ctx + Sponge.Shake256(f, seed, 114)[57..] + msg
    ensures second == [83, 105, 103, 69, 100, 52, 52, 56] + [phflag, |ctx|] + ctx + ocaml[..57] + pub + msg
    ensures k == Val(256, Sponge.Shake256(f, second, 114)) && n == Val(256, Sponge.Shake256(f, first, 114))
    ensures s == TWO_447 + 4 * (Val(256, Sponge.Shake256(f, seed, 114)[..56]) / 4 % TWO_445)
    ensures ocaml[..57] == Encode(SMul(n % L, b)) && Val(256, ocaml[57..]) == (k * s + n) % L
  {
    ocaml, native := SignBoth(f, g, seed, pub, phflag, ctx, msg, tbl, tables, b);
    first, second, k, s, n := ShakeSignature(f, b, seed, pub, phflag, ctx, msg, native);
  }

  /** Both verdicts, on every 114-octet signature and 57-octet key. */
  method Verdicts(f: Permutation, g: LanePermutation, sig: Octets, pub: Octets, phflag: int, ctx: Octets, msg: Octets,
                  tbl: seq<int>, tables: seq<seq<Precomp>>, ghost b: Point, ghost data: Octets)
    returns (ocaml: bool, native: bool)
    requires Setting(b, tbl, tables, f, g) && Exponent()
    requires |sig| == 114 && |pub| == 57 && |ctx| <= 255 && 0 <= phflag <= 1
    requires data == [83, 105, 103, 69, 100, 52, 52, 56] + [phflag, |ctx|] + ctx + sig[..57] + pub + msg
    ensures Val(256, Sponge.Shake256(f, data, 114)) >= 0 && Val(256, sig[57..]) >= 0
    ensures ocaml == native
    ensures ocaml <==>
      && Val(256, sig[57..]) < L
      && exists a: Point, r: Point :: OnCurve(a) && OnCurve(r) && Encode(a) == pub && Encode(r) == sig[..57]
           && SMul(4 * Val(256, sig[57..]), b) == Curve.Add(SMul(4, r), SMul(4 * Val(256, Sponge.Shake256(f, data, 114)), a))
  {
    VerdictMeans(Shake(f), b, sig, pub, phflag, ctx, msg, data);
    ocaml := Ed448.Verify(f, sig, pub, phflag, ctx, msg, tbl, b);
    native := NativeEd448.Verify(g, f, sig, pub, phflag, ctx, msg, tables, b);
  }

  /** Both verdicts for a key a B and R = r B, in integers. */
  method VerdictsOnMultiples(f: Permutation, g: LanePermutation, sig: Octets, pub: Octets, phflag: int, ctx: Octets, msg: Octets,
                             tbl: seq<int>, tables: seq<seq<Precomp>>, ghost b: Point, ghost data: Octets,
                             ghost a: nat, ghost r: nat)
    returns (ocaml: bool, native: bool)
    requires Setting(b, tbl, tables, f, g) && Exponent() && ExactOrder(b)
    requires |sig| == 114 && |ctx| <= 255 && 0 <= phflag <= 1
    requires pub == Encode(SMul(a, b)) && sig[..57] == Encode(SMul(r, b))
    requires data == [83, 105, 103, 69, 100, 52, 52, 56] + [phflag, |ctx|] + ctx + sig[..57] + pub + msg
    ensures ocaml == native
    ensures ocaml <==> Val(256, sig[57..]) < L && (Val(256, sig[57..]) - r - Val(256, Sponge.Shake256(f, data, 114)) * a) % L == 0
  {
    VerdictOnMultiples(Shake(f), b, sig, pub, phflag, ctx, msg, data, a, r);
    ocaml := Ed448.Verify(f, sig, pub, phflag, ctx, msg, tbl, b);
    native := NativeEd448.Verify(g, f, sig, pub, phflag, ctx, msg, tables, b);
  }
}
