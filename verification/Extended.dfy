/** Extended coordinates (X : Y : Z : T) with x = X/Z, y = Y/Z and X Y = Z T, and the algebra of
    the unified addition and doubling formulas on them. */
module Extended {
  import opened Congruence
  import opened Prime448
  import opened Field
  import opened Curve

  /** The guard of the two definitions below, like Curve.Unfold. */
  predicate Expand(p: Point, q: Point) {
    q == p
  }

  ghost predicate Represents(x: int, y: int, z: int, t: int, p: Point) {
    && OnCurve(p) && !Zero(z)
    && forall q: Point {:trigger Expand(p, q)} :: Expand(p, q) ==>
         Eq(x, q.x * z) && Eq(y, q.y * z) && Eq(t, q.x * q.y * z)
  }

  /** X, Y and Z of a point whose T may be stale. */
  ghost predicate Projective(x: int, y: int, z: int, p: Point) {
    && OnCurve(p) && !Zero(z)
    && forall q: Point {:trigger Expand(p, q)} :: Expand(p, q) ==> Eq(x, q.x * z) && Eq(y, q.y * z)
  }

  lemma ForgetT(x: int, y: int, z: int, t: int, p: Point)
    requires Represents(x, y, z, t, p)
    ensures Projective(x, y, z, p)
  {
  }

  /** The cached form of a point holds D T in place of T. */
  ghost predicate Cached(x: int, y: int, z: int, dt: int, p: Point) {
    && OnCurve(p) && !Zero(z)
    && forall q: Point {:trigger Expand(p, q)} :: Expand(p, q) ==>
         Eq(x, q.x * z) && Eq(y, q.y * z) && Eq(dt, D * q.x * q.y * z)
  }

  /** The curve in extended coordinates. */
  ghost predicate ExtendedCurve(x: int, y: int, z: int, t: int) {
    !Zero(z) && Eq(x * y, z * t) && Eq(x * x + y * y, z * z + D * (t * t))
  }

  lemma EqSum(r: int, a: int, b: int, c: int, d: int)
    requires Eq(r, a + b) && Eq(a, c) && Eq(b, d)
    ensures Eq(r, c + d)
  {
    CongAdd(a, c, b, d, P);
    CongTrans(r, a + b, c + d, P);
  }

  lemma EqDifference(r: int, a: int, b: int, c: int, d: int)
    requires Eq(r, a - b) && Eq(a, c) && Eq(b, d)
    ensures Eq(r, c - d)
  {
    CongAdd(a, c, b, d, P);
    CongTrans(r, a - b, c - d, P);
  }

  // ---------------------------------------------------------------- finishing either formula

  lemma Interchange3(n: int, v: int, a: int, b: int, m: int, u: int)
    ensures (n * a) * (v * b) == n * (v * (a * b)) && (u * a) * (m * b) == m * (u * (a * b))
    ensures (v * b) * (u * a) == u * (v * (a * b)) && (n * a) * (m * b) == n * (m * (a * b))
  {
  }

  /** X3 = E F, Y3 = G H, Z3 = F G, T3 = E H, when E and G carry one common factor and F and H
      another. */
  lemma Finish(p: Point, q: Point, a: int, b: int, e: int, f: int, g: int, h: int,
               x: int, y: int, z: int, t: int)
    requires FieldFacts() && OnCurve(p) && OnCurve(q) && !Zero(a) && !Zero(b)
    requires Eq(e, NumX(p, q) * a) && Eq(g, (1 + Cross(p, q)) * a)
    requires Eq(f, (1 - Cross(p, q)) * b) && Eq(h, NumY(p, q) * b)
    requires Eq(x, e * f) && Eq(y, g * h) && Eq(z, f * g) && Eq(t, e * h)
    ensures Represents(x, y, z, t, Add(p, q))
  {
    var n, m, u, v, w, c := NumX(p, q), NumY(p, q), 1 + Cross(p, q), 1 - Cross(p, q), a * b, Add(p, q);
    Interchange3(n, v, a, b, m, u);
    EqProduct(x, e, f, n * a, v * b);
    EqProduct(y, g, h, u * a, m * b);
    EqProduct(z, f, g, v * b, u * a);
    EqProduct(t, e, h, n * a, m * b);
    AddOnCurve(p, q);
    AddIsSum(p, q);
    DenominatorsNotZero(p, q);
    ProductNotZero(a, b);
    ProductNotZero(v, w);
    ProductNotZero(u, v * w);
    if Zero(z) {
      CongSym(z, u * (v * w), P);
      CongTrans(u * (v * w), z, 0, P);
    }
    Scaled(x, z, c.x, u, n, v * w);
    assert u * (v * w) == v * (u * w);
    Scaled(y, z, c.y, v, m, u * w);
    ScaledTwice(t, z, c.x, c.y, u, v, n, m, w);
  }

  /** From c u = n: a value n k over u k is c. */
  lemma Scaled(x: int, z: int, c: int, u: int, n: int, k: int)
    requires Eq(x, n * k) && Eq(z, u * k) && Eq(c * u, n)
    ensures Eq(x, c * z)
  {
    CongRefl(k, P);
    CongRefl(c, P);
    CongMul(c * u, n, k, k, P);
    CongMul(c, c, z, u * k, P);
    assert c * (u * k) == (c * u) * k;
    CongTrans(c * z, (c * u) * k, n * k, P);
    CongSym(c * z, n * k, P);
    CongTrans(x, n * k, c * z, P);
  }

  lemma ScaledTwice(t: int, z: int, c: int, d: int, u: int, v: int, n: int, m: int, w: int)
    requires Eq(t, n * (m * w)) && Eq(z, u * (v * w)) && Eq(c * u, n) && Eq(d * v, m)
    ensures Eq(t, c * d * z)
  {
    CongMul(c * u, n, d * v, m, P);
    assert (c * u) * (d * v) == (c * d) * (u * v);
    assert n * (m * w) == (n * m) * w && u * (v * w) == (u * v) * w;
    Scaled(t, z, c * d, u * v, n * m, w);
  }

  // ---------------------------------------------------------------- addition

  lemma AffineProducts(p: Point, q: Point, z1: int, z2: int, w: int)
    requires w == z1 * z2
    ensures (p.x * z1) * (q.x * z2) == (p.x * q.x) * w && (p.y * z1) * (q.y * z2) == (p.y * q.y) * w
    ensures (p.x * p.y * z1) * (D * q.x * q.y * z2) == Cross(p, q) * w
    ensures ((p.x + p.y) * z1) * ((q.x + q.y) * z2) == ((p.x + p.y) * (q.x + q.y)) * w
  {
    CrossRegroup2(p, q);
    Interchange(p.x, z1, q.x, z2);
    Interchange(p.y, z1, q.y, z2);
    Interchange(p.x * p.y, z1, D * q.x * q.y, z2);
    Interchange(p.x + p.y, z1, q.x + q.y, z2);
  }

  lemma CrossRegroup2(p: Point, q: Point)
    ensures (p.x * p.y) * (D * q.x * q.y) == Cross(p, q)
  {
  }

  lemma AdditionNumerators(p: Point, q: Point, w: int)
    ensures ((p.x + p.y) * (q.x + q.y)) * w - ((p.x * q.x) * w + (p.y * q.y) * w) == NumX(p, q) * w
    ensures (p.y * q.y) * w - (p.x * q.x) * w == NumY(p, q) * w
    ensures w - Cross(p, q) * w == (1 - Cross(p, q)) * w && w + Cross(p, q) * w == (1 + Cross(p, q)) * w
  {
    assert (p.x + p.y) * (q.x + q.y) == p.x * q.x + p.y * q.y + NumX(p, q);
  }

  /** The products and sums of add-2008-hwcd, given as the values each step leaves. */
  lemma AddFormula(p: Point, q: Point, x1: int, y1: int, z1: int, t1: int, x2: int, y2: int, z2: int, dt2: int,
                   a: int, b: int, c: int, d: int, s1: int, s2: int, m: int, ab: int,
                   e: int, f: int, g: int, h: int, x: int, y: int, z: int, t: int)
    requires FieldFacts() && Represents(x1, y1, z1, t1, p) && Cached(x2, y2, z2, dt2, q)
    requires Eq(a, x1 * x2) && Eq(b, y1 * y2) && Eq(c, t1 * dt2) && Eq(d, z1 * z2)
    requires Eq(s1, x1 + y1) && Eq(s2, x2 + y2) && Eq(m, s1 * s2) && Eq(ab, a + b)
    requires Eq(e, m - ab) && Eq(f, d - c) && Eq(g, d + c) && Eq(h, b - a)
    requires Eq(x, e * f) && Eq(y, g * h) && Eq(z, f * g) && Eq(t, e * h)
    ensures Represents(x, y, z, t, Add(p, q))
  {
    assert Expand(p, p) && Expand(q, q);
    var w := z1 * z2;
    AffineProducts(p, q, z1, z2, w);
    EqProduct(a, x1, x2, p.x * z1, q.x * z2);
    EqProduct(b, y1, y2, p.y * z1, q.y * z2);
    EqProduct(c, t1, dt2, p.x * p.y * z1, D * q.x * q.y * z2);
    EqSum(s1, x1, y1, p.x * z1, p.y * z1);
    EqSum(s2, x2, y2, q.x * z2, q.y * z2);
    assert p.x * z1 + p.y * z1 == (p.x + p.y) * z1 && q.x * z2 + q.y * z2 == (q.x + q.y) * z2;
    EqProduct(m, s1, s2, (p.x + p.y) * z1, (q.x + q.y) * z2);
    ProductNotZero(z1, z2);
    AddFormulaTail(p, q, w, a, b, c, d, m, ab, e, f, g, h, x, y, z, t);
  }

  lemma AddFormulaTail(p: Point, q: Point, w: int, a: int, b: int, c: int, d: int, m: int, ab: int,
                       e: int, f: int, g: int, h: int, x: int, y: int, z: int, t: int)
    requires FieldFacts() && OnCurve(p) && OnCurve(q) && !Zero(w)
    requires Eq(a, (p.x * q.x) * w) && Eq(b, (p.y * q.y) * w) && Eq(c, Cross(p, q) * w) && Eq(d, w)
    requires Eq(m, ((p.x + p.y) * (q.x + q.y)) * w) && Eq(ab, a + b)
    requires Eq(e, m - ab) && Eq(f, d - c) && Eq(g, d + c) && Eq(h, b - a)
    requires Eq(x, e * f) && Eq(y, g * h) && Eq(z, f * g) && Eq(t, e * h)
    ensures Represents(x, y, z, t, Add(p, q))
  {
    AdditionNumerators(p, q, w);
    EqSum(ab, a, b, (p.x * q.x) * w, (p.y * q.y) * w);
    EqDifference(e, m, ab, ((p.x + p.y) * (q.x + q.y)) * w, (p.x * q.x) * w + (p.y * q.y) * w);
    EqDifference(f, d, c, w, Cross(p, q) * w);
    EqSum(g, d, c, w, Cross(p, q) * w);
    EqDifference(h, b, a, (p.y * q.y) * w, (p.x * q.x) * w);
    Finish(p, q, w, w, e, f, g, h, x, y, z, t);
  }

  // ---------------------------------------------------------------- doubling

  lemma DoublingNumerators(p: Point, w: int)
    ensures ((p.x + p.y) * (p.x + p.y)) * w - ((p.x * p.x) * w + (p.y * p.y) * w) == NumX(p, p) * w
    ensures (p.x * p.x) * w - (p.y * p.y) * w == NumY(p, p) * -w
  {
    assert (p.x + p.y) * (p.x + p.y) == p.x * p.x + p.y * p.y + NumX(p, p);
  }

  /** x^2 + y^2 = 1 + (cross term of p with itself), by the curve equation. */
  lemma NormIsDenominator(p: Point)
    requires OnCurve(p)
    ensures Eq(p.x * p.x + p.y * p.y, 1 + Cross(p, p))
  {
    CurvePoint(p);
    EqSub(p.x * p.x + p.y * p.y, 1 + Cross(p, p));
  }

  lemma NegateNotZero(w: int)
    requires !Zero(w)
    ensures !Zero(-w)
  {
    if Zero(-w) {
      ZeroTimes(-w, -1);
    }
  }

  /** dbl-2008-hwcd: it does not read T. */
  lemma DoubleFormula(p: Point, x1: int, y1: int, z1: int, a: int, b: int, zz: int, c: int, s: int, ss: int,
                      g: int, e: int, f: int, h: int, x: int, y: int, z: int, t: int)
    requires FieldFacts() && Projective(x1, y1, z1, p)
    requires Eq(a, x1 * x1) && Eq(b, y1 * y1) && Eq(zz, z1 * z1) && Eq(c, zz + zz)
    requires Eq(s, x1 + y1) && Eq(ss, s * s) && Eq(g, a + b)
    requires Eq(e, ss - g) && Eq(f, g - c) && Eq(h, a - b)
    requires Eq(x, e * f) && Eq(y, g * h) && Eq(z, f * g) && Eq(t, e * h)
    ensures Represents(x, y, z, t, Add(p, p))
  {
    assert Expand(p, p);
    var w := z1 * z1;
    AffineProducts(p, p, z1, z1, w);
    EqSquare(a, x1, p.x * z1);
    EqSquare(b, y1, p.y * z1);
    EqSum(c, zz, zz, w, w);
    EqSum(s, x1, y1, p.x * z1, p.y * z1);
    assert p.x * z1 + p.y * z1 == (p.x + p.y) * z1;
    EqSquare(ss, s, (p.x + p.y) * z1);
    EqSum(g, a, b, (p.x * p.x) * w, (p.y * p.y) * w);
    ProductNotZero(z1, z1);
    DoubleFormulaTail(p, w, a, b, c, ss, g, e, f, h, x, y, z, t);
  }

  lemma DoubleFormulaTail(p: Point, w: int, a: int, b: int, c: int, ss: int,
                          g: int, e: int, f: int, h: int, x: int, y: int, z: int, t: int)
    requires FieldFacts() && OnCurve(p) && !Zero(w)
    requires Eq(a, (p.x * p.x) * w) && Eq(b, (p.y * p.y) * w) && Eq(c, w + w)
    requires Eq(ss, ((p.x + p.y) * (p.x + p.y)) * w) && Eq(g, (p.x * p.x) * w + (p.y * p.y) * w)
    requires Eq(e, ss - g) && Eq(f, g - c) && Eq(h, a - b)
    requires Eq(x, e * f) && Eq(y, g * h) && Eq(z, f * g) && Eq(t, e * h)
    ensures Represents(x, y, z, t, Add(p, p))
  {
    var k := Cross(p, p);
    DoublingNumerators(p, w);
    EqDifference(e, ss, g, ((p.x + p.y) * (p.x + p.y)) * w, (p.x * p.x) * w + (p.y * p.y) * w);
    EqDifference(h, a, b, (p.x * p.x) * w, (p.y * p.y) * w);
    NormIsDenominator(p);
    CongRefl(w, P);
    CongMul(p.x * p.x + p.y * p.y, 1 + k, w, w, P);
    assert (p.x * p.x + p.y * p.y) * w == (p.x * p.x) * w + (p.y * p.y) * w;
    CongTrans(g, (p.x * p.x + p.y * p.y) * w, (1 + k) * w, P);
    EqDifference(f, g, c, (1 + k) * w, w + w);
    assert (1 + k) * w - (w + w) == (1 - k) * -w;
    NegateNotZero(w);
    Finish(p, p, w, -w, e, f, g, h, x, y, z, t);
  }

  // ---------------------------------------------------------------- meaning of the coordinates

  lemma AffineOf(x: int, z: int) returns (a: int)
    requires Fermat() && !Zero(z)
    ensures 0 <= a < P && Eq(x, a * z)
  {
    a := x * Inv(z) % P;
    CongMod(x * Inv(z), P);
    Quotient(x, z);
    CongSym(a * z, x, P);
  }

  lemma ScaledDefect(a: int, b: int, z: int)
    ensures ((z * z) * (z * z)) * Defect(a, b)
         == (z * z) * ((a * z) * (a * z) + (b * z) * (b * z) - z * z - D * ((a * b * z) * (a * b * z)))
  {
    SquareOfProduct(a, z);
    SquareOfProduct(b, z);
    SquareOfProduct(a * b, z);
    SquareOfProduct(a, b);
    ScaledDefectCore(a * a, b * b, z * z);
  }

  lemma ScaledDefectCore(a: int, b: int, w: int)
    ensures (w * w) * (a + b - 1 - D * a * b) == w * (a * w + b * w - w - D * ((a * b) * w))
  {
  }

  /** A quadruple satisfies the two extended equations exactly when it represents a point. */
  lemma RepresentsIffExtended(x: int, y: int, z: int, t: int)
    requires Fermat()
    ensures ExtendedCurve(x, y, z, t) <==> exists p: Point :: Represents(x, y, z, t, p)
  {
    if ExtendedCurve(x, y, z, t) {
      var a := AffineOf(x, z);
      var b := AffineOf(y, z);
      ExtendedToAffine(x, y, z, t, a, b);
      assert Represents(x, y, z, t, Point(a, b));
    }
    if p: Point :| Represents(x, y, z, t, p) {
      AffineToExtended(x, y, z, t, p);
    }
  }

  /** x y = z t decides t once x and y are known. */
  lemma ThirdCoordinate(x: int, y: int, z: int, t: int, a: int, b: int)
    requires Fermat() && !Zero(z) && Eq(x, a * z) && Eq(y, b * z)
    ensures Eq(x * y, z * t) <==> Eq(t, a * b * z)
  {
    CongMul(x, a * z, y, b * z, P);
    assert (a * z) * (b * z) == z * (a * b * z);
    if Eq(x * y, z * t) {
      CongSym(x * y, z * t, P);
      CongTrans(z * t, x * y, z * (a * b * z), P);
      Cancel(t, a * b * z, z);
    }
    if Eq(t, a * b * z) {
      CongRefl(z, P);
      CongMul(z, z, t, a * b * z, P);
      CongSym(z * t, z * (a * b * z), P);
      CongTrans(x * y, z * (a * b * z), z * t, P);
    }
  }

  lemma ExtendedDefect(x: int, y: int, z: int, t: int, a: int, b: int)
    requires Eq(x, a * z) && Eq(y, b * z) && Eq(t, a * b * z)
    ensures Eq(x * x + y * y - z * z - D * (t * t),
               (a * z) * (a * z) + (b * z) * (b * z) - z * z - D * ((a * b * z) * (a * b * z)))
  {
    CongRefl(z * z, P);
    CongRefl(D, P);
    CongMul(x, a * z, x, a * z, P);
    CongMul(y, b * z, y, b * z, P);
    CongMul(t, a * b * z, t, a * b * z, P);
    CongMul(D, D, t * t, (a * b * z) * (a * b * z), P);
    CongAdd(x * x, (a * z) * (a * z), y * y, (b * z) * (b * z), P);
    CongAdd(x * x + y * y, (a * z) * (a * z) + (b * z) * (b * z), z * z, z * z, P);
    CongAdd(x * x + y * y - z * z, (a * z) * (a * z) + (b * z) * (b * z) - z * z,
            D * (t * t), D * ((a * b * z) * (a * b * z)), P);
  }

  lemma ExtendedToAffine(x: int, y: int, z: int, t: int, a: int, b: int)
    requires Fermat() && ExtendedCurve(x, y, z, t) && Eq(x, a * z) && Eq(y, b * z)
    ensures Eq(t, a * b * z) && Zero(Defect(a, b))
  {
    ThirdCoordinate(x, y, z, t, a, b);
    ExtendedDefect(x, y, z, t, a, b);
    var gap := x * x + y * y - z * z - D * (t * t);
    var k := (a * z) * (a * z) + (b * z) * (b * z) - z * z - D * ((a * b * z) * (a * b * z));
    EqSub(x * x + y * y, z * z + D * (t * t));
    assert x * x + y * y - (z * z + D * (t * t)) == gap;
    CongSym(gap, k, P);
    CongTrans(k, gap, 0, P);
    ZeroTimes(k, z * z);
    ScaledDefect(a, b, z);
    ProductNotZero(z, z);
    ProductNotZero(z * z, z * z);
    NoZeroDivisors((z * z) * (z * z), Defect(a, b));
  }

  lemma AffineToExtended(x: int, y: int, z: int, t: int, p: Point)
    requires Fermat() && Represents(x, y, z, t, p)
    ensures ExtendedCurve(x, y, z, t)
  {
    CurvePoint(p);
    assert Expand(p, p);
    var a, b := p.x, p.y;
    ThirdCoordinate(x, y, z, t, a, b);
    ExtendedDefect(x, y, z, t, a, b);
    var gap := x * x + y * y - z * z - D * (t * t);
    var k := (a * z) * (a * z) + (b * z) * (b * z) - z * z - D * ((a * b * z) * (a * b * z));
    ZeroTimes(Defect(a, b), (z * z) * (z * z));
    ScaledDefect(a, b, z);
    ProductNotZero(z, z);
    NoZeroDivisors(z * z, k);
    CongTrans(gap, k, 0, P);
    assert x * x + y * y - (z * z + D * (t * t)) == gap;
    EqSub(x * x + y * y, z * z + D * (t * t));
  }

  /** Coordinates determine the point. */
  lemma RepresentsUnique(x: int, y: int, z: int, t: int, u: int, p: Point, q: Point)
    requires Fermat() && Represents(x, y, z, t, p) && Represents(x, y, z, u, q)
    ensures p == q
  {
    CurvePoint(p);
    CurvePoint(q);
    assert Expand(p, p) && Expand(q, q);
    UniqueQuotient(p.x, q.x, z, x) by { CongSym(x, p.x * z, P); CongSym(x, q.x * z, P); }
    UniqueQuotient(p.y, q.y, z, y) by { CongSym(y, p.y * z, P); CongSym(y, q.y * z, P); }
  }
}
