/** The ladder step is arithmetic on u-coordinates of the Montgomery curve: its four outputs as
    polynomials, the doubling and differential addition they stand for, and the multiple of the
    point that the whole ladder leaves. */
module MontgomeryLadder {
  import opened Congruence
  import opened Radix
  import opened Prime448
  import opened Field
  import opened Ladder
  import opened Pruning
  import opened X448Spec
  import M = Montgomery

  lemma SumEq(o: Ops, a: int, b: int, p: int, q: int)
    requires Modular(o) && Eq(a, p) && Eq(b, q)
    ensures Eq(o.add(a, b), p + q) && Eq(o.sub(a, b), p - q)
  {
    Operations(o, a, b);
    CongAdd(a, p, b, q, P);
    CongTrans(o.add(a, b), a + b, p + q, P);
    CongTrans(o.sub(a, b), a - b, p - q, P);
  }

  lemma ProductEq(o: Ops, a: int, b: int, p: int, q: int)
    requires Modular(o) && Eq(a, p) && Eq(b, q)
    ensures Eq(o.mul(a, b), p * q)
  {
    Operations(o, a, b);
    EqProduct(o.mul(a, b), a, b, p, q);
  }

  lemma DoublingIdentity(x: int, z: int)
    ensures ((x + z) * (x + z)) * ((x - z) * (x - z)) == (x * x - z * z) * (x * x - z * z)
    ensures (x + z) * (x + z) - (x - z) * (x - z) == 4 * (x * z)
    ensures (x + z) * (x + z) + (4 * (x * z)) * 39081 == x * x + 156326 * (x * z) + z * z
  {
    assert (x + z) * (x - z) == x * x - z * z;
    assert ((x + z) * (x + z)) * ((x - z) * (x - z)) == ((x + z) * (x - z)) * ((x + z) * (x - z));
  }

  /** x_2 and z_2 of the step. */
  lemma DoubledPair(o: Ops, x1: int, s: Registers)
    requires Modular(o)
    ensures var r, x, z := Step(o, x1, s), s.x2, s.z2;
      && Eq(r.x2, (x * x - z * z) * (x * x - z * z))
      && Eq(r.z2, (4 * (x * z)) * (x * x + 156326 * (x * z) + z * z))
  {
    var x, z := s.x2, s.z2;
    var a, b := o.add(x, z), o.sub(x, z);
    var aa, bb := o.mul(a, a), o.mul(b, b);
    var e := o.sub(aa, bb);
    CongRefl(x, P);
    CongRefl(z, P);
    SumEq(o, x, z, x, z);
    ProductEq(o, a, a, x + z, x + z);
    ProductEq(o, b, b, x - z, x - z);
    ProductEq(o, aa, bb, (x + z) * (x + z), (x - z) * (x - z));
    SumEq(o, aa, bb, (x + z) * (x + z), (x - z) * (x - z));
    DoublingIdentity(x, z);
    CongRefl(A24, P);
    ProductEq(o, e, A24, 4 * (x * z), A24);
    SumEq(o, aa, o.mul(e, A24), (x + z) * (x + z), (4 * (x * z)) * A24);
    ProductEq(o, e, o.add(aa, o.mul(e, A24)), 4 * (x * z), x * x + 156326 * (x * z) + z * z);
  }

  lemma AdditionIdentity(x: int, z: int, u: int, w: int)
    ensures (u - w) * (x + z) + (u + w) * (x - z) == 2 * (x * u - z * w)
    ensures (u - w) * (x + z) - (u + w) * (x - z) == 2 * (z * u - x * w)
  {
  }

  lemma FourSquares(a: int)
    ensures (2 * a) * (2 * a) == 4 * (a * a)
  {
  }

  lemma OppositeSquare(a: int, b: int)
    ensures (b - a) * (b - a) == (a - b) * (a - b)
  {
  }

  /** x_3 and z_3 of the step. */
  lemma AddedPair(o: Ops, x1: int, s: Registers)
    requires Modular(o)
    ensures var r, x2, z2, x3, z3 := Step(o, x1, s), s.x2, s.z2, s.x3, s.z3;
      && Eq(r.x3, 4 * ((x2 * x3 - z2 * z3) * (x2 * x3 - z2 * z3)))
      && Eq(r.z3, x1 * (4 * ((x2 * z3 - z2 * x3) * (x2 * z3 - z2 * x3))))
  {
    var x2, z2, x3, z3 := s.x2, s.z2, s.x3, s.z3;
    var a, b, c, d := o.add(x2, z2), o.sub(x2, z2), o.add(x3, z3), o.sub(x3, z3);
    var da, cb := o.mul(d, a), o.mul(c, b);
    CongRefl(x2, P);
    CongRefl(z2, P);
    CongRefl(x3, P);
    CongRefl(z3, P);
    SumEq(o, x2, z2, x2, z2);
    SumEq(o, x3, z3, x3, z3);
    ProductEq(o, d, a, x3 - z3, x2 + z2);
    ProductEq(o, c, b, x3 + z3, x2 - z2);
    SumEq(o, da, cb, (x3 - z3) * (x2 + z2), (x3 + z3) * (x2 - z2));
    AdditionIdentity(x2, z2, x3, z3);
    var m, n := x2 * x3 - z2 * z3, z2 * x3 - x2 * z3;
    ProductEq(o, o.add(da, cb), o.add(da, cb), 2 * m, 2 * m);
    ProductEq(o, o.sub(da, cb), o.sub(da, cb), 2 * n, 2 * n);
    FourSquares(m);
    FourSquares(n);
    OppositeSquare(x2 * z3, z2 * x3);
    CongRefl(x1, P);
    ProductEq(o, x1, o.mul(o.sub(da, cb), o.sub(da, cb)), x1, 4 * (n * n));
  }

  // ---------------------------------------------------------------- projective coordinates

  /** (x : z) is the u-coordinate of p; the neutral element is (x : 0) for any x but 0. */
  ghost predicate Holds(p: M.Point, x: int, z: int) {
    if p.Affine? then !Zero(z) && Eq(x, p.u * z) else !Zero(x) && Zero(z)
  }

  lemma SameZero(a: int, b: int)
    requires Eq(a, b)
    ensures Zero(a) <==> Zero(b)
  {
    CongSym(a, b, P);
    if Zero(a) {
      CongTrans(b, a, 0, P);
    }
    if Zero(b) {
      CongTrans(a, b, 0, P);
    }
  }

  lemma HoldsMoves(p: M.Point, x: int, z: int, y: int, w: int)
    requires Holds(p, x, z) && Eq(y, x) && Eq(w, z)
    ensures Holds(p, y, w)
  {
    SameZero(y, x);
    SameZero(w, z);
    if p.Affine? {
      CongSym(w, z, P);
      CongRefl(p.u, P);
      CongMul(p.u, p.u, z, w, P);
      CongTrans(y, x, p.u * z, P);
      CongTrans(y, p.u * z, p.u * w, P);
    }
  }

  lemma SmallNotZero()
    ensures !Zero(4) && !Zero(156328) && !Zero(156324)
  {
    PrimeValue();
    if Zero(4) {
      CongSmall(4, 0, P);
    }
    if Zero(156328) {
      CongSmall(156328, 0, P);
    }
    if Zero(156324) {
      CongSmall(156324, 0, P);
    }
  }

  lemma SquareNotZero(a: int)
    requires Fermat()
    ensures Zero(a * a) <==> Zero(a)
  {
    if Zero(a) {
      ZeroTimes(a, a);
    } else {
      ProductNotZero(a, a);
    }
  }

  // ---------------------------------------------------------------- doubling

  lemma DoubleOfNeutral(x: int, z: int)
    requires Fermat() && !Zero(x) && Zero(z)
    ensures !Zero((x * x - z * z) * (x * x - z * z)) && Zero((4 * (x * z)) * (x * x + 156326 * (x * z) + z * z))
  {
    SquareNotZero(x);
    SquareNotZero(z);
    if Zero(x * x - z * z) {
      ZeroSum(x * x - z * z, z * z);
    }
    SquareNotZero(x * x - z * z);
    ZeroTimes(z, x);
    ZeroTimes(x * z, 4);
    ZeroTimes(4 * (x * z), x * x + 156326 * (x * z) + z * z);
  }

  lemma HomogeneousDouble(u: int, z: int)
    ensures var x, w := u * z, (z * z) * (z * z);
      && (x * x - z * z) * (x * x - z * z) == w * ((u * u - 1) * (u * u - 1))
      && (4 * (x * z)) * (x * x + 156326 * (x * z) + z * z) == w * (4 * M.Right(u))
  {
    var x, t := u * z, z * z;
    assert x * x == (u * u) * t && x * z == u * t;
    HomogeneousFactors(u, t);
    M.Factored(u);
  }

  lemma HomogeneousFactors(u: int, t: int)
    ensures ((u * u) * t - t) * ((u * u) * t - t) == (t * t) * ((u * u - 1) * (u * u - 1))
    ensures (4 * (u * t)) * ((u * u) * t + 156326 * (u * t) + t) == (t * t) * (4 * (u * (u * u + 156326 * u + 1)))
  {
    assert (u * u) * t - t == t * (u * u - 1);
    assert (u * u) * t + 156326 * (u * t) + t == t * (u * u + 156326 * u + 1);
  }

  /** x^2 - z^2 and the rest depend on x modulo P only. */
  lemma DoubleMoves(x: int, y: int, z: int)
    requires Eq(x, y)
    ensures Eq((x * x - z * z) * (x * x - z * z), (y * y - z * z) * (y * y - z * z))
    ensures Eq((4 * (x * z)) * (x * x + 156326 * (x * z) + z * z), (4 * (y * z)) * (y * y + 156326 * (y * z) + z * z))
  {
    CongRefl(z, P);
    CongRefl(z * z, P);
    CongRefl(4, P);
    CongRefl(156326, P);
    CongMul(x, y, x, y, P);
    CongMul(x, y, z, z, P);
    CongAdd(x * x, y * y, z * z, z * z, P);
    CongMul(x * x - z * z, y * y - z * z, x * x - z * z, y * y - z * z, P);
    CongMul(4, 4, x * z, y * z, P);
    CongMul(156326, 156326, x * z, y * z, P);
    CongAdd(x * x, y * y, 156326 * (x * z), 156326 * (y * z), P);
    CongAdd(x * x + 156326 * (x * z), y * y + 156326 * (y * z), z * z, z * z, P);
    CongMul(4 * (x * z), 4 * (y * z), x * x + 156326 * (x * z) + z * z, y * y + 156326 * (y * z) + z * z, P);
  }

  lemma UnitsNotRoots(u: int)
    requires Fermat() && Zero(M.Right(u))
    ensures !Zero(u * u - 1)
  {
    SmallNotZero();
    if Zero(u * u - 1) {
      assert u * u - 1 == (u - 1) * (u + 1);
      NoZeroDivisors(u - 1, u + 1);
      if Zero(u - 1) {
        ZeroTimes(u - 1, u * u + 156327 * u + 156328);
        assert M.Right(u) - (u - 1) * (u * u + 156327 * u + 156328) == 156328;
        ZeroSum(M.Right(u), (u - 1) * (u * u + 156327 * u + 156328));
      } else {
        ZeroTimes(u + 1, u * u + 156325 * u - 156324);
        assert M.Right(u) - (u + 1) * (u * u + 156325 * u - 156324) == 156324;
        ZeroSum(M.Right(u), (u + 1) * (u * u + 156325 * u - 156324));
      }
    }
  }

  /** w (u^2 - 1)^2 : 4 w Right(u) is the double, for any w that is not 0. */
  lemma DoubleRatio(c: int, p: M.Point, w: int)
    requires Fermat() && !Zero(c) && M.OnCurve(c, p) && p.Affine? && !Zero(w)
    ensures Holds(M.Add(c, p, p), w * ((p.u * p.u - 1) * (p.u * p.u - 1)), w * (4 * M.Right(p.u)))
  {
    var u, r := p.u, M.Right(p.u);
    var s, t := u * u - 1, M.UOf(M.Add(c, p, p));
    M.Doubling(c, p);
    SmallNotZero();
    if Zero(r) {
      UnitsNotRoots(u);
      SquareNotZero(s);
      ProductNotZero(w, s * s);
      ZeroTimes(r, 4);
      ZeroTimes(4 * r, w);
    } else {
      ProductNotZero(4, r);
      ProductNotZero(w, 4 * r);
      CongSym((4 * r) * t, s * s, P);
      CongRefl(w, P);
      CongMul(w, w, s * s, (4 * r) * t, P);
      assert w * ((4 * r) * t) == t * (w * (4 * r));
    }
  }

  lemma DoubleHolds(c: int, p: M.Point, x: int, z: int)
    requires Fermat() && !Zero(c) && M.OnCurve(c, p) && Holds(p, x, z)
    ensures Holds(M.Add(c, p, p), (x * x - z * z) * (x * x - z * z), (4 * (x * z)) * (x * x + 156326 * (x * z) + z * z))
  {
    if p.Affine? {
      var y, w := p.u * z, (z * z) * (z * z);
      SquareNotZero(z);
      SquareNotZero(z * z);
      DoubleRatio(c, p, w);
      HomogeneousDouble(p.u, z);
      DoubleMoves(x, y, z);
      HoldsMoves(M.Add(c, p, p), (y * y - z * z) * (y * y - z * z), (4 * (y * z)) * (y * y + 156326 * (y * z) + z * z),
                 (x * x - z * z) * (x * x - z * z), (4 * (x * z)) * (x * x + 156326 * (x * z) + z * z));
    } else {
      DoubleOfNeutral(x, z);
    }
  }

  // ---------------------------------------------------------------- differential addition

  /** x_3 and z_3 of the step, before the factor x_1. */
  function SumX(x2: int, z2: int, x3: int, z3: int): int {
    4 * ((x2 * x3 - z2 * z3) * (x2 * x3 - z2 * z3))
  }

  function SumZ(x2: int, z2: int, x3: int, z3: int): int {
    4 * ((x2 * z3 - z2 * x3) * (x2 * z3 - z2 * x3))
  }

  lemma SumMoves(x2: int, z2: int, x3: int, z3: int, y2: int, y3: int)
    requires Eq(x2, y2) && Eq(x3, y3)
    ensures Eq(SumX(x2, z2, x3, z3), SumX(y2, z2, y3, z3)) && Eq(SumZ(x2, z2, x3, z3), SumZ(y2, z2, y3, z3))
  {
    CongRefl(z2, P);
    CongRefl(z3, P);
    CongRefl(4, P);
    CongRefl(z2 * z3, P);
    CongMul(x2, y2, x3, y3, P);
    CongMul(x2, y2, z3, z3, P);
    CongMul(z2, z2, x3, y3, P);
    CongAdd(x2 * x3, y2 * y3, z2 * z3, z2 * z3, P);
    CongAdd(x2 * z3, y2 * z3, z2 * x3, z2 * y3, P);
    var g, h := x2 * x3 - z2 * z3, y2 * y3 - z2 * z3;
    CongMul(g, h, g, h, P);
    CongMul(4, 4, g * g, h * h, P);
    var k, l := x2 * z3 - z2 * x3, y2 * z3 - z2 * y3;
    CongMul(k, l, k, l, P);
    CongMul(4, 4, k * k, l * l, P);
  }

  lemma SumSwaps(x2: int, z2: int, x3: int, z3: int)
    ensures SumX(x2, z2, x3, z3) == SumX(x3, z3, x2, z2) && SumZ(x2, z2, x3, z3) == SumZ(x3, z3, x2, z2)
  {
    OppositeSquare(x2 * z3, z2 * x3);
  }

  lemma NeutralIdentity(x: int, y: int, u: int)
    ensures SumX(x, 0, u * y, y) == u * (u * SumZ(x, 0, u * y, y)) && SumZ(x, 0, u * y, y) == 4 * ((x * y) * (x * y))
  {
    assert x * (u * y) == u * (x * y);
    assert (u * (x * y)) * (u * (x * y)) == u * (u * ((x * y) * (x * y)));
  }

  /** The sum of the neutral element (x2 : z2) and a point with coordinate u. */
  lemma SumWithNeutral(x2: int, z2: int, x3: int, z3: int, u: int)
    requires Fermat() && !Zero(x2) && Zero(z2) && !Zero(z3) && Eq(x3, u * z3) && !Zero(u)
    ensures !Zero(u * SumZ(x2, z2, x3, z3)) && Eq(SumX(x2, z2, x3, z3), u * (u * SumZ(x2, z2, x3, z3)))
  {
    var x, z := SumX(x2, 0, u * z3, z3), SumZ(x2, 0, u * z3, z3);
    NeutralMoves(x2, z2, x3, z3, u);
    NeutralIdentity(x2, z3, u);
    SmallNotZero();
    ProductNotZero(x2, z3);
    SquareNotZero(x2 * z3);
    ProductNotZero(4, (x2 * z3) * (x2 * z3));
    SameZero(SumZ(x2, z2, x3, z3), z);
    ProductNotZero(u, SumZ(x2, z2, x3, z3));
    CongSym(SumZ(x2, z2, x3, z3), z, P);
    CongRefl(u, P);
    CongMul(u, u, z, SumZ(x2, z2, x3, z3), P);
    CongMul(u, u, u * z, u * SumZ(x2, z2, x3, z3), P);
    CongTrans(SumX(x2, z2, x3, z3), x, u * (u * SumZ(x2, z2, x3, z3)), P);
  }

  lemma NeutralMoves(x2: int, z2: int, x3: int, z3: int, u: int)
    requires Zero(z2) && Eq(x3, u * z3)
    ensures Eq(SumX(x2, z2, x3, z3), SumX(x2, 0, u * z3, z3)) && Eq(SumZ(x2, z2, x3, z3), SumZ(x2, 0, u * z3, z3))
  {
    CongRefl(x2, P);
    CongRefl(z3, P);
    SumMoves(x2, z2, x3, z3, x2, u * z3);
    SwappedMoves(x2, z2, u * z3, z3, 0);
    CongTrans(SumX(x2, z2, x3, z3), SumX(x2, z2, u * z3, z3), SumX(x2, 0, u * z3, z3), P);
    CongTrans(SumZ(x2, z2, x3, z3), SumZ(x2, z2, u * z3, z3), SumZ(x2, 0, u * z3, z3), P);
  }

  lemma SwappedMoves(x2: int, z2: int, x3: int, z3: int, w: int)
    requires Eq(z2, w)
    ensures Eq(SumX(x2, z2, x3, z3), SumX(x2, w, x3, z3)) && Eq(SumZ(x2, z2, x3, z3), SumZ(x2, w, x3, z3))
  {
    CongRefl(x2 * x3, P);
    CongRefl(x2 * z3, P);
    CongRefl(z3, P);
    CongRefl(x3, P);
    CongRefl(4, P);
    CongMul(z2, w, z3, z3, P);
    CongMul(z2, w, x3, x3, P);
    CongAdd(x2 * x3, x2 * x3, z2 * z3, w * z3, P);
    CongAdd(x2 * z3, x2 * z3, z2 * x3, w * x3, P);
    var g, h := x2 * x3 - z2 * z3, x2 * x3 - w * z3;
    CongMul(g, h, g, h, P);
    CongMul(4, 4, g * g, h * h, P);
    var k, l := x2 * z3 - z2 * x3, x2 * z3 - w * x3;
    CongMul(k, l, k, l, P);
    CongMul(4, 4, k * k, l * l, P);
  }

  lemma HomogeneousSum(a: int, b: int, y: int, z: int)
    ensures var w := (y * z) * (y * z);
      && SumX(a * y, y, b * z, z) == 4 * (w * ((a * b - 1) * (a * b - 1)))
      && SumZ(a * y, y, b * z, z) == 4 * (w * ((b - a) * (b - a)))
  {
    var t := y * z;
    assert (a * y) * (b * z) - y * z == t * (a * b - 1);
    assert (a * y) * z - y * (b * z) == -(t * (b - a));
    SquareOfProduct(t, a * b - 1);
    SquareOfProduct(t, b - a);
  }

  lemma SquareOfProduct(t: int, e: int)
    ensures (t * e) * (t * e) == (t * t) * (e * e) && (-(t * e)) * (-(t * e)) == (t * t) * (e * e)
  {
  }

  /** 4 w (a b - 1)^2 : 4 w u (b - a)^2 is the sum of two points with different coordinates. */
  lemma ChordRatio(w: int, d: int, e: int, t: int, u: int)
    requires Fermat() && !Zero(w) && !Zero(d) && !Zero(u) && Eq(d * (t * u), e)
    ensures !Zero(u * (4 * (w * d))) && Eq(4 * (w * e), t * (u * (4 * (w * d))))
  {
    SmallNotZero();
    ProductNotZero(w, d);
    ProductNotZero(4, w * d);
    ProductNotZero(u, 4 * (w * d));
    CongSym(d * (t * u), e, P);
    CongRefl(4 * w, P);
    CongMul(4 * w, 4 * w, e, d * (t * u), P);
    assert (4 * w) * e == 4 * (w * e) && (4 * w) * (d * (t * u)) == t * (u * (4 * (w * d)));
  }

  /** 4 w e^2 : 4 w u d^2 is the neutral element when d = 0. */
  lemma OppositeRatio(w: int, d: int, e: int, u: int)
    requires Fermat() && !Zero(w) && d == 0 && !Zero(e)
    ensures !Zero(4 * (w * (e * e))) && Zero(u * (4 * (w * (d * d))))
  {
    SmallNotZero();
    SquareNotZero(e);
    ProductNotZero(w, e * e);
    ProductNotZero(4, w * (e * e));
    CongRefl(0, P);
  }

  lemma SumOfChord(c: int, p: M.Point, q: M.Point, w: int, u: int)
    requires Fermat() && !Zero(c) && M.OnCurve(c, p) && M.OnCurve(c, q) && p.Affine? && q.Affine? && !Zero(w)
    requires var d := M.Add(c, p, M.Neg(q)); d.Affine? && !Zero(d.u) && d.u == u
    requires p.u != q.u
    ensures var e, f := p.u * q.u - 1, q.u - p.u;
      Holds(M.Add(c, p, q), 4 * (w * (e * e)), u * (4 * (w * (f * f))))
  {
    var e, f := p.u * q.u - 1, q.u - p.u;
    M.DifferentialAddition(c, p, q);
    SquareNotZero(f);
    ChordRatio(w, f * f, e * e, M.UOf(M.Add(c, p, q)), u);
  }

  lemma SumOfOpposites(c: int, p: M.Point, q: M.Point, w: int, u: int)
    requires Fermat() && !Zero(c) && M.OnCurve(c, p) && M.OnCurve(c, q) && p.Affine? && q.Affine? && !Zero(w)
    requires var d := M.Add(c, p, M.Neg(q)); d.Affine? && !Zero(d.u)
    requires p.u == q.u
    ensures var e, f := p.u * q.u - 1, q.u - p.u;
      Holds(M.Add(c, p, q), 4 * (w * (e * e)), u * (4 * (w * (f * f))))
  {
    OppositePoints(c, p, q);
    OppositeRatio(w, q.u - p.u, p.u * q.u - 1, u);
  }

  /** The sum of two affine points, from the u-coordinate of their difference. */
  lemma SumOfAffine(c: int, p: M.Point, q: M.Point, y: int, z: int, u: int)
    requires Fermat() && !Zero(c) && M.OnCurve(c, p) && M.OnCurve(c, q) && p.Affine? && q.Affine? && !Zero(y) && !Zero(z)
    requires var d := M.Add(c, p, M.Neg(q)); d.Affine? && !Zero(d.u) && d.u == u
    ensures Holds(M.Add(c, p, q), SumX(p.u * y, y, q.u * z, z), u * SumZ(p.u * y, y, q.u * z, z))
  {
    var w := (y * z) * (y * z);
    ProductNotZero(y, z);
    SquareNotZero(y * z);
    HomogeneousSum(p.u, q.u, y, z);
    if p.u != q.u {
      SumOfChord(c, p, q, w, u);
    } else {
      SumOfOpposites(c, p, q, w, u);
    }
  }

  /** Points with the same u whose difference is affine are opposite. */
  lemma OppositePoints(c: int, p: M.Point, q: M.Point)
    requires Fermat() && !Zero(c) && M.OnCurve(c, p) && M.OnCurve(c, q) && p.Affine? && q.Affine? && p.u == q.u
    requires var d := M.Add(c, p, M.Neg(q)); d.Affine? && !Zero(d.u)
    ensures M.Add(c, p, q) == M.Infinity && !Zero(p.u * p.u - 1)
  {
    M.SameU(c, p, q);
    M.NegOnCurve(c, p);
    M.NegOnCurve(c, q);
    M.SameU(c, p, M.Neg(q));
    M.Doubling(c, p);
    SmallNotZero();
    var r, d := M.Right(p.u), M.Add(c, p, p);
    ProductNotZero(4, r);
    ProductNotZero(4 * r, d.u);
    SquareNotZero(p.u * p.u - 1);
    SameZero((4 * r) * d.u, (p.u * p.u - 1) * (p.u * p.u - 1));
  }

  lemma AddHolds(c: int, p: M.Point, q: M.Point, x2: int, z2: int, x3: int, z3: int, u: int)
    requires Fermat() && !Zero(c) && M.OnCurve(c, p) && M.OnCurve(c, q) && Holds(p, x2, z2) && Holds(q, x3, z3)
    requires var d := M.Add(c, p, M.Neg(q)); d.Affine? && d.u == u && !Zero(u)
    ensures Holds(M.Add(c, p, q), SumX(x2, z2, x3, z3), u * SumZ(x2, z2, x3, z3))
  {
    if p.Infinity? {
      SumWithNeutral(x2, z2, x3, z3, u);
    } else if q.Infinity? {
      SumSwaps(x2, z2, x3, z3);
      SumWithNeutral(x3, z3, x2, z2, u);
    } else {
      SumOfAffine(c, p, q, z2, z3, u);
      SumMoves(x2, z2, x3, z3, p.u * z2, q.u * z3);
      CongRefl(u, P);
      CongMul(u, u, SumZ(x2, z2, x3, z3), SumZ(p.u * z2, z2, q.u * z3, z3), P);
      HoldsMoves(M.Add(c, p, q), SumX(p.u * z2, z2, q.u * z3, z3), u * SumZ(p.u * z2, z2, q.u * z3, z3),
                 SumX(x2, z2, x3, z3), u * SumZ(x2, z2, x3, z3));
    }
  }

  // ---------------------------------------------------------------- the whole ladder

  /** (x : z) is the u-coordinate of n p. */
  ghost predicate IsMultiple(c: int, p: M.Point, n: nat, x: int, z: int) {
    Holds(M.Multiple(c, n, p), x, z)
  }

  lemma StepHolds(o: Ops, c: int, p: M.Point, n: nat, m: nat, s: Registers)
    requires Modular(o) && Fermat() && !Zero(c) && M.Associative(c) && M.OnCurve(c, p) && p.Affine? && !Zero(p.u)
    requires (m == n + 1 || n == m + 1) && IsMultiple(c, p, n, s.x2, s.z2) && IsMultiple(c, p, m, s.x3, s.z3)
    ensures var r := Step(o, p.u, s); IsMultiple(c, p, 2 * n, r.x2, r.z2) && IsMultiple(c, p, n + m, r.x3, r.z3)
  {
    var r := Step(o, p.u, s);
    var a, b := M.Multiple(c, n, p), M.Multiple(c, m, p);
    M.MultipleOnCurve(c, n, p);
    M.MultipleOnCurve(c, m, p);
    M.MultipleAdd(c, n, n, p);
    DoubledPair(o, p.u, s);
    DoubleHolds(c, a, s.x2, s.z2);
    HoldsMoves(M.Add(c, a, a), (s.x2 * s.x2 - s.z2 * s.z2) * (s.x2 * s.x2 - s.z2 * s.z2),
               (4 * (s.x2 * s.z2)) * (s.x2 * s.x2 + 156326 * (s.x2 * s.z2) + s.z2 * s.z2), r.x2, r.z2);
    AddedPair(o, p.u, s);
    NeighboursHold(c, p, n, m, s);
    HoldsMoves(M.Multiple(c, n + m, p), SumX(s.x2, s.z2, s.x3, s.z3), p.u * SumZ(s.x2, s.z2, s.x3, s.z3), r.x3, r.z3);
  }

  lemma NeighboursHold(c: int, p: M.Point, n: nat, m: nat, s: Registers)
    requires Fermat() && !Zero(c) && M.Associative(c) && M.OnCurve(c, p) && p.Affine? && !Zero(p.u)
    requires (m == n + 1 || n == m + 1) && IsMultiple(c, p, n, s.x2, s.z2) && IsMultiple(c, p, m, s.x3, s.z3)
    ensures IsMultiple(c, p, n + m, SumX(s.x2, s.z2, s.x3, s.z3), p.u * SumZ(s.x2, s.z2, s.x3, s.z3))
  {
    var a, b := M.Multiple(c, n, p), M.Multiple(c, m, p);
    M.MultipleOnCurve(c, n, p);
    M.MultipleOnCurve(c, m, p);
    if n == m + 1 {
      M.Neighbours(c, m, p);
      M.MultipleAdd(c, n, m, p);
      AddHolds(c, a, b, s.x2, s.z2, s.x3, s.z3, p.u);
    } else {
      M.Neighbours(c, n, p);
      M.MultipleAdd(c, m, n, p);
      SumSwaps(s.x2, s.z2, s.x3, s.z3);
      AddHolds(c, b, a, s.x3, s.z3, s.x2, s.z2, p.u);
    }
  }

  lemma StartHolds(c: int, p: M.Point)
    requires p.Affine?
    ensures IsMultiple(c, p, 0, 1, 0) && IsMultiple(c, p, 1, p.u, 1)
  {
    OneNotZero();
    CongRefl(0, P);
    CongRefl(p.u, P);
    assert M.Multiple(c, 0, p) == M.Infinity;
    assert M.Multiple(c, 1, p) == M.Add(c, p, M.Multiple(c, 0, p));
  }

  /** The quotient read from a pair that holds a point is its u-coordinate. */
  lemma QuotientIsCoordinate(p: M.Point, s: Registers)
    requires Fermat() && Holds(p, s.x2, s.z2) && (p.Affine? ==> 0 <= p.u < P)
    ensures Quotient(s) == M.UOf(p)
  {
    var q := s.x2 * Inv(s.z2);
    CongMod(q, P);
    if p.Affine? {
      M.SlopeLaw(s.x2, s.z2);
      assert q * s.z2 == s.z2 * q && p.u * s.z2 == s.z2 * p.u;
      CongTrans(s.z2 * q, s.x2, s.z2 * p.u, P);
      Cancel(q, p.u, s.z2);
      CongTrans(q % P, q, p.u, P);
      CongSmall(q % P, p.u, P);
    } else {
      InverseOfZero(s.z2);
      ZeroTimes(Inv(s.z2), s.x2);
      CongIff(q, 0, P);
    }
  }

  /** The step doubles and adds multiples of p. */
  lemma StepIsDifferential(rep: (nat, int, int) -> bool, o: Ops, c: int, p: M.Point)
    requires Modular(o) && Fermat() && !Zero(c) && M.Associative(c) && M.OnCurve(c, p) && p.Affine? && !Zero(p.u)
    requires forall n: nat, x: int, z: int :: rep(n, x, z) <==> IsMultiple(c, p, n, x, z)
    ensures Differential(rep, o, p.u)
  {
    StartHolds(c, p);
    forall n: nat, m: nat, s: Registers ensures DifferentialAt(rep, o, p.u, n, m, s) {
      if (m == n + 1 || n == m + 1) && rep(n, s.x2, s.z2) && rep(m, s.x3, s.z3) {
        StepHolds(o, c, p, n, m, s);
      }
    }
  }

  /** The ladder's result is the u-coordinate of k p, for every bit string worth k. */
  lemma LadderIsMultiple(o: Ops, bits: seq<int>, c: int, p: M.Point)
    requires Modular(o) && IsBits(bits) && Fermat() && !Zero(c) && M.Associative(c)
    requires M.OnCurve(c, p) && p.Affine? && !Zero(p.u)
    ensures Val(2, bits) >= 0 && Result(o, bits, p.u) == M.UOf(M.Multiple(c, Val(2, bits), p))
  {
    var rep := (n: nat, x: int, z: int) => IsMultiple(c, p, n, x, z);
    StepIsDifferential(rep, o, c, p);
    LadderInvariant(rep, o, p.u, bits, 0);
    assert bits[0..] == bits;
    M.MultipleOnCurve(c, Val(2, bits), p);
    QuotientIsCoordinate(M.Multiple(c, Val(2, bits), p), Textbook(o, p.u, bits, 0));
  }

  /** An even multiple of a point of order two is the neutral element. */
  lemma {:induction false} EvenMultiple(c: int, n: nat, p: M.Point)
    requires M.Add(c, p, p) == M.Infinity
    ensures M.Multiple(c, 2 * n, p) == M.Infinity
  {
    if n > 0 {
      EvenMultiple(c, n - 1, p);
      assert M.Multiple(c, 2 * n - 1, p) == M.Add(c, p, M.Multiple(c, 2 * (n - 1), p));
    }
  }

  /** The point with u = 0 has order two and the pruned scalar is even. */
  lemma ZeroCoordinate(bits: seq<int>, scalar: Octets, u: int, c: int, v: int)
    requires Fermat() && !Zero(c) && 0 <= v < P && Zero(c * (v * v)) && u % P == 0
    requires IsBits(bits) && |scalar| == 56 && Val(2, bits) == Val(256, PrunedKey(scalar)) >= 0
    ensures Result(Residues(), bits, 0) == M.UOf(M.Multiple(c, Val(2, bits), M.Affine(0, v)))
  {
    CongIff(u, 0, P);
    NoZeroDivisors(c, v * v);
    SquareNotZero(v);
    CongSmall(v, 0, P);
    ResiduesAreModular();
    SmallOrderResult(Residues(), bits, u, scalar);
    KeyValue(scalar);
    EvenMultiple(c, Val(2, bits) / 2, M.Affine(0, v));
  }

  /** X448 of a scalar and any u-coordinate, on the curve c v^2 = u^3 + 156326 u^2 + u. */
  lemma ResultIsMultiple(bits: seq<int>, scalar: Octets, u: int, c: int, v: int)
    requires Fermat() && !Zero(c) && M.Associative(c) && 0 <= v < P
    requires var x := u % P; (c * (v * v) - (x * x * x + 156326 * (x * x) + x)) % P == 0
    requires IsBits(bits) && |scalar| == 56 && Val(2, bits) == Val(256, PrunedKey(scalar))
    ensures Result(Residues(), bits, u % P)
         == M.UOf(M.Multiple(c, TWO_447 + 4 * (Val(256, scalar) / 4 % TWO_445), M.Affine(u % P, v)))
  {
    var x := u % P;
    KeyValue(scalar);
    CongMod(u, P);
    CurveEquation(c, x, v);
    if x == 0 {
      ZeroCoordinate(bits, scalar, u, c, v);
    } else {
      if Zero(x) {
        CongSmall(x, 0, P);
      }
      M.SatisfiesIntro(c, x, v);
      ResiduesAreModular();
      LadderIsMultiple(Residues(), bits, c, M.Affine(x, v));
    }
  }

  lemma CurveEquation(c: int, x: int, v: int)
    requires (c * (v * v) - (x * x * x + 156326 * (x * x) + x)) % P == 0
    ensures Eq(c * (v * v), M.Right(x)) && (x == 0 ==> Zero(c * (v * v)))
  {
    CongIff(c * (v * v) - M.Right(x), 0, P);
    EqSub(c * (v * v), M.Right(x));
  }
}
