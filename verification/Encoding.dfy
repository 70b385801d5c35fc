/** Point encodings (RFC 8032, sections 5.2.2 and 5.2.3) as functions of affine points, written
    after the reference model, and the theorem that decoding inverts encoding exactly. */
module Encoding {
  import opened Arith
  import opened Wrappers
  import opened Congruence
  import opened Radix
  import opened Prime448
  import opened Field
  import opened Curve
  import K = Fe448

  /** y in 56 little-endian bytes and the low bit of x on top of the last octet. */
  function Encode(p: Point): (s: seq<int>)
    ensures |s| == 57
  {
    ToDigits(256, p.y, 56) + [128 * (p.x % 2)]
  }

  /** Guarded like the value of Prime448.P: the products appear only where a proof opens them. */
  ghost predicate FindsRoots(f: int -> int) {
    forall y: int, z: int {:trigger Value(y, z)} :: Value(y, z) ==>
      f(y) == RootCandidate(z * z - 1, D * (z * z) - 1) % P
  }

  ghost predicate TestsRoots(f: (int, int) -> bool) {
    forall x: int, y: int, z: int {:trigger f(x, y), Value(y, z)} :: Value(y, z) ==>
      f(x, y) == ((x * x * (D * (z * z) - 1) - (z * z - 1)) % P == 0)
  }

  type RootFinder = f: int -> int | FindsRoots(f)
    witness (y: int) => RootCandidate(y * y - 1, D * (y * y) - 1) % P

  type RootTest = f: (int, int) -> bool | TestsRoots(f)
    witness (x: int, y: int) => (x * x * (D * (y * y) - 1) - (y * y - 1)) % P == 0

  const ROOT: RootFinder

  const IS_ROOT: RootTest

  /** The candidate root of (y^2 - 1) / (D y^2 - 1). */
  function RootOf(y: int): int {
    ROOT(y)
  }

  /** (D y^2 - 1) x^2 = y^2 - 1 */
  predicate IsRootOf(x: int, y: int) {
    IS_ROOT(x, y)
  }

  lemma RootOpened(y: int)
    ensures RootOf(y) == RootCandidate(y * y - 1, D * (y * y) - 1) % P
  {
    assert Value(y, y);
  }

  lemma RootRange(y: int)
    ensures 0 <= RootOf(y) < P
  {
    RootOpened(y);
    CongMod(RootCandidate(y * y - 1, D * (y * y) - 1), P);
  }

  lemma TestOpened(x: int, y: int)
    ensures IsRootOf(x, y) <==> (x * x * (D * (y * y) - 1) - (y * y - 1)) % P == 0
  {
    assert Value(y, y);
  }

  function Decode(s: seq<int>): Option<Point> {
    if |s| != 57 then None
    else
      var sign, y := s[56] / 128, Val(256, s[..56] + [s[56] % 128]);
      var x := RootOf(y);
      if !(0 <= y < P) || !IsRootOf(x, y) || (x == 0 && sign == 1) then None
      else Some(Point(if x % 2 != sign then (-x) % P else x, y))
  }

  // ---------------------------------------------------------------- the curve equation

  /** D y^2 - 1 is never zero, because D is not a square. */
  lemma DenominatorY(y: int)
    requires FieldFacts()
    ensures !Zero(D * (y * y) - 1)
  {
    if Zero(D * (y * y) - 1) {
      EqSub(D * (y * y), 1);
      CongSym(D * (y * y), 1, P);
      assert RootOfD(1, y);
      ZeroTimes(y, D * y);
      assert D * y * y == D * (y * y);
      CongTrans(1, D * (y * y), 0, P);
      OneNotZero();
    }
  }

  lemma DefectAsRoot(x: int, y: int)
    ensures Defect(x, y) == -(x * x * (D * (y * y) - 1) - (y * y - 1))
  {
    assert D * (x * x) * (y * y) == (x * x) * (D * (y * y));
  }

  lemma RootIff(x: int, y: int)
    ensures IsRootOf(x, y) <==> Zero(Defect(x, y))
    ensures IsRootOf(x, y) <==> Eq(x * x * (D * (y * y) - 1), y * y - 1)
  {
    var a, b := x * x * (D * (y * y) - 1), y * y - 1;
    TestOpened(x, y);
    DefectAsRoot(x, y);
    CongIff(a - b, 0, P);
    EqSub(a, b);
    if Zero(a - b) {
      ZeroTimes(a - b, -1);
    }
    if Zero(Defect(x, y)) {
      ZeroTimes(Defect(x, y), -1);
    }
  }

  lemma DifferenceFactors(x: int, r: int, v: int)
    ensures x * x * v - r * r * v == v * ((x - r) * (x + r))
  {
  }

  /** Two roots of the same quotient are equal up to sign. */
  lemma RootsAgree(x: int, r: int, u: int, v: int)
    requires Fermat() && !Zero(v) && Eq(x * x * v, u) && Eq(r * r * v, u)
    ensures Eq(x, r) || Eq(x, -r)
  {
    CongSym(r * r * v, u, P);
    CongTrans(x * x * v, u, r * r * v, P);
    EqSub(x * x * v, r * r * v);
    DifferenceFactors(x, r, v);
    NoZeroDivisors(v, (x - r) * (x + r));
    EqSub(x, r);
    EqSub(x, -r);
    if !Zero(x - r) {
      NoZeroDivisors(x - r, x + r);
    }
  }

  lemma Opposite(x: int)
    requires 0 <= x < P
    ensures (-x) % P == if x == 0 then 0 else P - x
    ensures x > 0 ==> (-x) % P % 2 != x % 2
    ensures (-((-x) % P)) % P == x
  {
    PrimeShape();
    NegateModulo(x, P);
    NegateModulo(if x == 0 then 0 else P - x, P);
  }

  lemma SameUpToSign(x: int, r: int)
    requires 0 <= x < P && 0 <= r < P && (Eq(x, r) || Eq(x, -r))
    ensures x == r || x == (-r) % P
  {
    if Eq(x, r) {
      CongSmall(x, r, P);
    } else {
      CongMod(-r, P);
      CongSym((-r) % P, -r, P);
      CongTrans(x, -r, (-r) % P, P);
      CongSmall(x, (-r) % P, P);
    }
  }

  lemma CandidateIsRoot(x: int, u: int, v: int)
    requires Fermat() && !Zero(v) && Eq(x * x * v, u)
    ensures Eq(RootCandidate(u, v) * RootCandidate(u, v) * v, u)
  {
    assert v * x * x == x * x * v;
    assert IsRoot(x, u, v);
    RootCandidateDecides(u, v);
  }

  lemma CandidateAgrees(x: int, c: int, u: int, v: int)
    requires Fermat() && !Zero(v) && Eq(x * x * v, u) && Eq(c * c * v, u) && 0 <= x < P
    ensures 0 <= c % P < P && Eq((c % P) * (c % P) * v, u)
    ensures c % P == x || c % P == (-x) % P
  {
    CanonicalRoot(c, u, v);
    RootsAgree(c % P, x, u, v);
    SameUpToSign(c % P, x);
  }

  /** The root computed from y, compared with the x of any curve point with that y. */
  lemma RootOfPoint(p: Point)
    requires FieldFacts() && OnCurve(p)
    ensures 0 <= RootOf(p.y) < P && IsRootOf(RootOf(p.y), p.y)
    ensures RootOf(p.y) == p.x || RootOf(p.y) == (-p.x) % P
  {
    CurvePoint(p);
    RootIff(p.x, p.y);
    RootOfY(p.x, p.y);
  }

  lemma RootOfY(x: int, y: int)
    requires FieldFacts() && 0 <= x < P && IsRootOf(x, y)
    ensures 0 <= RootOf(y) < P && IsRootOf(RootOf(y), y)
    ensures RootOf(y) == x || RootOf(y) == (-x) % P
  {
    var u, v := y * y - 1, D * (y * y) - 1;
    DenominatorY(y);
    RootIff(x, y);
    CandidateIsRoot(x, u, v);
    CandidateAgrees(x, RootCandidate(u, v), u, v);
    RootOpened(y);
    RootIff(RootOf(y), y);
  }

  lemma CanonicalRoot(c: int, u: int, v: int)
    requires Eq(c * c * v, u)
    ensures 0 <= c % P < P && Eq((c % P) * (c % P) * v, u)
  {
    var x := c % P;
    CongMod(c, P);
    CongRefl(v, P);
    CongMul(x, c, x, c, P);
    CongMul(x * x, c * c, v, v, P);
    CongTrans(x * x * v, c * c * v, u, P);
  }

  // ---------------------------------------------------------------- the bytes

  lemma FieldBytes()
    ensures Pow(256, 56) == PHI * PHI
  {
    K.BytePower();
  }

  /** A number below P needs nothing of the last octet. */
  lemma LastOctet(low: seq<int>, t: int)
    requires |low| == 56 && Digits(256, low) && 0 <= t
    ensures Val(256, low + [t]) == Val(256, low) + t * (PHI * PHI)
    ensures Val(256, low + [t]) < P ==> t == 0
  {
    FieldBytes();
    PrimeShape();
    ValSnoc(256, low, t);
    ValBounds(256, low);
  }

  lemma EncodeMeans(p: Point, s: seq<int>)
    requires 0 <= p.y < P && |s| == 57 && Digits(256, s)
    ensures Encode(p) == s <==> Val(256, s[..56]) == p.y && s[56] == 128 * (p.x % 2)
  {
    FieldBytes();
    PrimeShape();
    DigitsAreToDigits(256, s[..56]);
    ToDigitsValue(256, p.y, 56);
    assert s == s[..56] + [s[56]];
    assert Encode(p)[..56] == ToDigits(256, p.y, 56);
  }

  lemma EncodeDigits(p: Point)
    requires 0 <= p.y < P
    ensures Digits(256, Encode(p))
  {
  }

  lemma DecodeEncode(p: Point)
    requires FieldFacts() && OnCurve(p)
    ensures Decode(Encode(p)) == Some(p)
  {
    var s := Encode(p);
    CurvePoint(p);
    EncodeDigits(p);
    EncodeMeans(p, s);
    LastOctet(s[..56], 0);
    RootOfPoint(p);
    Opposite(p.x);
    assert s[56] / 128 == p.x % 2 && s[56] % 128 == 0;
  }

  lemma EncodeDecode(s: seq<int>)
    requires FieldFacts() && Digits(256, s) && Decode(s).Some?
    ensures OnCurve(Decode(s).value) && Encode(Decode(s).value) == s
  {
    var sign, y := s[56] / 128, Val(256, s[..56] + [s[56] % 128]);
    var x, p := RootOf(y), Decode(s).value;
    LastOctet(s[..56], s[56] % 128);
    RootRange(y);
    Opposite(x);
    OppositeRoot(x, y);
    RootIff(p.x, y);
    EncodeMeans(p, s);
  }

  lemma OppositeRoot(x: int, y: int)
    requires 0 <= x < P && IsRootOf(x, y)
    ensures IsRootOf((-x) % P, y)
  {
    RootIff(x, y);
    RootIff((-x) % P, y);
    assert -x * -x == x * x;
    CanonicalRoot(-x, y * y - 1, D * (y * y) - 1);
  }

  /** A string decodes to p exactly when it is the encoding of the curve point p. */
  lemma DecodeIff(s: seq<int>, p: Point)
    requires FieldFacts() && Digits(256, s)
    ensures Decode(s) == Some(p) <==> OnCurve(p) && Encode(p) == s
  {
    if Decode(s) == Some(p) {
      EncodeDecode(s);
    }
    if OnCurve(p) && Encode(p) == s {
      DecodeEncode(p);
    }
  }

  /** A string is accepted exactly when it is the canonical encoding of a curve point. */
  lemma AcceptedIff(s: seq<int>)
    requires FieldFacts() && Digits(256, s)
    ensures Decode(s).Some? <==> exists p: Point :: OnCurve(p) && Encode(p) == s
  {
    if Decode(s).Some? {
      EncodeDecode(s);
    }
    if p: Point :| OnCurve(p) && Encode(p) == s {
      DecodeEncode(p);
    }
  }

  lemma EncodeInjective(p: Point, q: Point)
    requires FieldFacts() && OnCurve(p) && OnCurve(q) && Encode(p) == Encode(q)
    ensures p == q
  {
    DecodeEncode(p);
    DecodeEncode(q);
  }
}
