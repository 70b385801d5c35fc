/** Point encoding and decoding on limb records (RFC 8032, sections 5.2.2 and 5.2.3). */
module GeBytes {
  import opened Congruence
  import opened Radix
  import opened Words
  import opened Prime448
  import opened Field
  import opened FieldOps
  import opened Curve
  import opened Extended
  import opened Ge448
  import opened Encoding
  import K = Fe448

  lemma CanonicalResidue(x: int, a: int)
    requires Eq(x, a) && 0 <= a < P
    ensures x % P == a
  {
    CongMod(x, P);
    CongTrans(x % P, x, a, P);
    CongSmall(x % P, a, P);
  }

  /** Dividing by Z. */
  lemma Divided(x: int, hx: int, z: int, zi: int, a: int)
    requires Fermat() && !Zero(z) && Eq(hx, a * z) && Eq(zi, Inv(z)) && Eq(x, hx * zi)
    ensures Eq(x, a)
  {
    EqProduct(x, hx, zi, a * z, Inv(z));
    InverseLaw(z);
    CongRefl(a, P);
    CongMul(a, a, z * Inv(z), 1, P);
    assert a * (z * Inv(z)) == (a * z) * Inv(z);
    CongTrans(x, (a * z) * Inv(z), a, P);
  }

  lemma AffineValues(p: Point, hx: int, hy: int, z: int, t: int, zi: int, x: int, y: int)
    requires Fermat() && Represents(hx, hy, z, t, p) && Eq(zi, Inv(z)) && Eq(x, hx * zi) && Eq(y, hy * zi)
    ensures x % P == p.x && y % P == p.y
  {
    assert Expand(p, p);
    Divided(x, hx, z, zi, p.x);
    Divided(y, hy, z, zi, p.y);
    CurvePoint(p);
    CanonicalResidue(x, p.x);
    CanonicalResidue(y, p.y);
  }

  /** The 57-byte encoding of the point h stands for. */
  method ToBytes(h: Ge, ghost p: Point) returns (s: seq<int>)
    requires Fermat() && h.Is(p)
    ensures s == Encode(p)
  {
    var zi := Invert(h.z);
    var x := Mul(h.x, zi);
    var y := Mul(h.y, zi);
    AffineValues(p, V(h.x), V(h.y), V(h.z), V(h.t), V(zi), V(x), V(y));
    var low := FieldOps.ToBytes(y);
    var negative := IsNegative(x);
    s := low + [128 * negative];
  }

  // ---------------------------------------------------------------- decoding

  method And(a: int, b: int) returns (r: int)
    requires (a == 0 || a == 1) && (b == 0 || b == 1)
    ensures r == if a == 1 && b == 1 then 1 else 0
  {
    r := Land(a, b);
  }

  method Xor(a: int, b: int) returns (r: int)
    requires (a == 0 || a == 1) && (b == 0 || b == 1)
    ensures r == if a == b then 0 else 1
  {
    r := Lxor(a, b);
  }

  method IsSame(a: int, b: int) returns (r: int)
    requires 0 <= a < 256 && 0 <= b < 256
    ensures r == if a == b then 1 else 0
  {
    WordPowers();
    r := EqualSmall(a, b);
  }

  /** Re-encoding the low 56 bytes returns them exactly when their value is below P. */
  lemma ReencodesIff(low: seq<int>, v: int)
    requires |low| == 56 && Digits(256, low) && Eq(v, Val(256, low))
    ensures ToDigits(256, v % P, 56) == low <==> Val(256, low) < P
  {
    var n := Val(256, low);
    FieldBytes();
    PrimeShape();
    ValBounds(256, low);
    DigitsAreToDigits(256, low);
    CongMod(v, P);
    ToDigitsValue(256, v % P, 56);
    if n < P {
      CanonicalResidue(v, n);
    }
  }

  /** y < P: the last octet holds no bit of y and the low bytes are canonical. */
  method CanonicalY(y: Elt, low: Octets, top: int) returns (ok: int)
    requires |low| == 56 && 0 <= top < 128 && Eq(V(y), Val(256, low))
    ensures ok == if 0 <= Val(256, low + [top]) < P then 1 else 0
  {
    var clear := IsSame(top, 0);
    var canonical := FieldOps.ToBytes(y);
    var same := K.BytesEqual(canonical, low, 56);
    ok := And(clear, same);
    assert canonical[..56] == canonical && low[..56] == low;
    ReencodesIff(low, V(y));
    LastOctet(low, top);
    ValBounds(256, low);
  }

  lemma CandidateCong(u: int, v: int, a: int, b: int)
    requires Eq(u, a) && Eq(v, b)
    ensures Eq(RootCandidate(u, v), RootCandidate(a, b))
  {
    CongMul(u, a, u, a, P);
    CongMul(u * u, a * a, u, a, P);
    CongMul(u * u * u, a * a * a, u * u, a * a, P);
    CongMul(v, b, v, b, P);
    CongMul(v * v, b * b, v, b, P);
    CongMul((u * u * u) * (u * u), (a * a * a) * (a * a), v * v * v, b * b * b, P);
    PowCong(Radicand(u, v), Radicand(a, b), (P - 3) / 4);
    CongMul(Pow(Radicand(u, v), (P - 3) / 4), Pow(Radicand(a, b), (P - 3) / 4), u * u * u, a * a * a, P);
    CongMul(Pow(Radicand(u, v), (P - 3) / 4) * (u * u * u), Pow(Radicand(a, b), (P - 3) / 4) * (a * a * a), v, b, P);
  }

  /** x is the root computed from y, and ok says whether it is one. */
  lemma RootFound(x: int, u: int, v: int, y: int)
    requires Eq(u, y * y - 1) && Eq(v, D * (y * y) - 1) && Eq(x, RootCandidate(u, v))
    ensures x % P == RootOf(y)
    ensures Eq(x * x * v, u) <==> IsRootOf(RootOf(y), y)
  {
    var a, b := y * y - 1, D * (y * y) - 1;
    CandidateCong(u, v, a, b);
    CongTrans(x, RootCandidate(u, v), RootCandidate(a, b), P);
    CongIff(x, RootCandidate(a, b), P);
    RootOpened(y);
    RootIff(RootOf(y), y);
    var c := x % P;
    CongMod(x, P);
    CongMul(c, x, c, x, P);
    CongMul(c * c, x * x, b, v, P) by { CongSym(v, b, P); }
    SameTruth(c * c * b, x * x * v, a, u) by { CongSym(u, a, P); }
  }

  lemma SameTruth(p: int, q: int, a: int, u: int)
    requires Eq(p, q) && Eq(a, u)
    ensures Eq(p, a) <==> Eq(q, u)
  {
    CongSym(p, q, P);
    CongSym(a, u, P);
    if Eq(p, a) {
      CongTrans(q, p, a, P);
      CongTrans(q, a, u, P);
    }
    if Eq(q, u) {
      CongTrans(p, q, u, P);
      CongTrans(p, u, a, P);
    }
  }

  /** u = y^2 - 1, v = D y^2 - 1 and the square-root step. */
  method SolveX(y: Elt, ghost n: int) returns (x: Elt, ok: int)
    requires Eq(V(y), n)
    ensures V(x) % P == RootOf(n) && ok == if IsRootOf(RootOf(n), n) then 1 else 0
  {
    var one := Small(1);
    var yy := Sq(y);
    EqSquare(V(yy), V(y), n);
    var dyy := MulSmall(yy, -39081);
    CongRefl(D, P);
    EqProduct(V(dyy), V(yy), D, n * n, D);
    var u := Sub(yy, one);
    var v := Sub(dyy, one);
    CongRefl(1, P);
    EqDifference(V(u), V(yy), V(one), n * n, 1);
    assert (n * n) * D == D * (n * n);
    EqDifference(V(v), V(dyy), V(one), D * (n * n), 1);
    x, ok := SqrtRatio(u, v);
    RootFound(V(x), V(u), V(v), n);
  }

  /** The root with the parity of the sign bit. */
  method ChooseSign(x: Elt, sign: int) returns (r: Elt)
    requires sign == 0 || sign == 1
    ensures V(r) % P == if V(x) % P % 2 != sign then (-(V(x) % P)) % P else V(x) % P
  {
    var minus := FieldOps.Neg(x);
    var negative := IsNegative(x);
    var flip := Xor(negative, sign);
    r := Cmov(x, minus, flip);
    CongMod(V(x), P);
    CongRefl(0, P);
    CongAdd(0, 0, V(x) % P, V(x), P);
    CongIff(-(V(x) % P), -V(x), P);
  }

  /** Rejects a zero x that carries a sign bit. */
  method SignAllowed(x: Elt, sign: int) returns (ok: int)
    requires sign == 0 || sign == 1
    ensures ok == if V(x) % P == 0 && sign == 1 then 0 else 1
  {
    var zero := IsZero(x);
    CongIff(V(x), 0, P);
    var bad := And(zero, sign);
    ok := Xor(1, bad);
  }

  lemma DecodedPoint(x: int, y: int, t: int, p: Point)
    requires OnCurve(p) && x % P == p.x && Eq(y, p.y) && Eq(t, x * y)
    ensures Represents(x, y, 1, t, p)
  {
    OneNotZero();
    CongMod(x, P);
    CongSym(p.x, x, P);
    EqProduct(t, x, y, p.x, p.y);
  }

  /** `of_bytes`: accepts exactly the encodings of curve points and sets h to the point. */
  method OfBytes(h: Ge, s: Octets) returns (ok: int)
    requires FieldFacts() && |s| == 57
    modifies h
    ensures ok == if Decode(s).Some? then 1 else 0
    ensures ok == 1 ==> h.Is(Decode(s).value)
  {
    var sign, top := s[56] / 128, s[56] % 128;
    ghost var n := Val(256, s[..56]);
    var y := FieldOps.OfBytes(s, 0);
    assert s[0..56] == s[..56];
    var canonical := CanonicalY(y, s[..56], top);
    var x, root := SolveX(y, n);
    ok := And(canonical, root);
    var allowed := SignAllowed(x, sign);
    ok := And(ok, allowed);
    x := ChooseSign(x, sign);
    h.x := x;
    h.y := y;
    h.z := Small(1);
    h.t := Mul(x, y);
    LastOctet(s[..56], top);
    if ok == 1 {
      EncodeDecode(s);
      DecodedPoint(V(h.x), V(h.y), V(h.t), Decode(s).value);
    }
  }

  lemma IdentityIff(x: int, y: int, z: int, t: int, p: Point)
    requires Fermat() && Represents(x, y, z, t, p)
    ensures p == Identity <==> Zero(x) && Eq(y, z)
  {
    assert Expand(p, p);
    CurvePoint(p);
    CongRefl(z, P);
    if p == Identity {
      assert 0 * z == 0 && 1 * z == z;
    }
    if Zero(x) && Eq(y, z) {
      CongSym(x, p.x * z, P);
      CongTrans(p.x * z, x, 0, P);
      NoZeroDivisors(p.x, z);
      CongSmall(p.x, 0, P);
      CongSym(y, p.y * z, P);
      CongTrans(p.y * z, y, z, P);
      assert p.y * z == z * p.y && z == z * 1;
      Cancel(p.y, 1, z);
      CongSmall(p.y, 1, P);
    }
  }

  method IsIdentity(h: Ge, ghost p: Point) returns (r: int)
    requires Fermat() && h.Is(p)
    ensures r == if p == Identity then 1 else 0
  {
    var zero := IsZero(h.x);
    var same := Equal(h.y, h.z);
    r := And(zero, same);
    IdentityIff(V(h.x), V(h.y), V(h.z), V(h.t), p);
  }
}
