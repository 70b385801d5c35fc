/** The curves c v^2 = u^3 + 156326 u^2 + u modulo P with the chord-and-tangent law. c = 1 is
    Curve448 and a non-square c its twist, so every u-coordinate X448 can be given is on one of
    them. Closure and the two laws that mention u-coordinates only are proved. */
module Montgomery {
  import opened Congruence
  import opened Prime448
  import opened Field

  const A: int := 156326

  datatype Point = Infinity | Affine(u: int, v: int)

  /** u^3 + A u^2 + u */
  function Right(u: int): int {
    u * u * u + A * (u * u) + u
  }

  /** c v^2 = u^3 + A u^2 + u, behind the guard of Prime448. */
  ghost predicate Satisfies(c: int, u: int, v: int) {
    forall w: int {:trigger Value(u, w)} :: Value(u, w) ==> Eq(c * (v * v), Right(w))
  }

  ghost predicate OnCurve(c: int, p: Point) {
    p.Affine? ==> 0 <= p.u < P && 0 <= p.v < P && Satisfies(c, p.u, p.v)
  }

  function Neg(p: Point): Point {
    if p.Affine? then Affine(p.u, (-p.v) % P) else p
  }

  function ChordSlope(p: Point, q: Point): int
    requires p.Affine? && q.Affine?
  {
    (q.v - p.v) * Inv(q.u - p.u)
  }

  function TangentSlope(c: int, p: Point): int
    requires p.Affine?
  {
    (3 * (p.u * p.u) + 2 * (A * p.u) + 1) * Inv(2 * (c * p.v))
  }

  /** The third point of the line of slope m through p and a point with coordinate u, negated. */
  function Third(c: int, m: int, p: Point, u: int): Point
    requires p.Affine?
  {
    var x := (c * (m * m) - A - p.u - u) % P;
    Affine(x, (m * (p.u - x) - p.v) % P)
  }

  function Add(c: int, p: Point, q: Point): Point {
    if p.Infinity? then q
    else if q.Infinity? then p
    else if p.u != q.u then Third(c, ChordSlope(p, q), p, q.u)
    else if (p.v + q.v) % P == 0 then Infinity
    else Third(c, TangentSlope(c, p), p, p.u)
  }

  /** n p */
  function Multiple(c: int, n: nat, p: Point): Point {
    if n == 0 then Infinity else Add(c, p, Multiple(c, n - 1, p))
  }

  /** The u-coordinate, 0 for the neutral element. */
  function UOf(p: Point): int {
    if p.Affine? then p.u else 0
  }

  ghost predicate AssociativeAt(c: int, p: Point, q: Point, r: Point) {
    OnCurve(c, p) && OnCurve(c, q) && OnCurve(c, r) ==> Add(c, Add(c, p, q), r) == Add(c, p, Add(c, q, r))
  }

  /** Hypothesis: the law on the curve with this c is associative. */
  ghost predicate Associative(c: int) {
    forall p: Point, q: Point, r: Point :: AssociativeAt(c, p, q, r)
  }

  lemma Equation(c: int, p: Point)
    requires OnCurve(c, p) && p.Affine?
    ensures Eq(c * (p.v * p.v), Right(p.u))
  {
    assert Value(p.u, p.u);
  }

  lemma SatisfiesIntro(c: int, u: int, v: int)
    requires Eq(c * (v * v), Right(u))
    ensures Satisfies(c, u, v)
  {
  }

  // ---------------------------------------------------------------- exact identities

  /** Right(u + y) - c (v + m y)^2, sorted by powers of y. */
  lemma LineMeetsCubic(c: int, m: int, u: int, v: int, y: int)
    ensures Right(u + y) - c * ((v + m * y) * (v + m * y))
         == (Right(u) - c * (v * v)) + y * ((3 * (u * u) + 2 * (A * u) + 1) - 2 * (c * (m * v)))
            + (y * y) * (3 * u + A - c * (m * m)) + y * (y * y)
  {
  }

  lemma SumsAndProducts(a: int, b: int)
    ensures a * a * a + b * b * b == (a + b) * (a + b) * (a + b) - 3 * ((a + b) * (a * b))
    ensures a * a + b * b == (a + b) * (a + b) - 2 * (a * b)
    ensures (b - a) * (b - a) == (a + b) * (a + b) - 4 * (a * b)
  {
  }

  lemma ChordCore(s: int, q: int, k: int)
    ensures (s * s * s - 3 * (s * q)) + k * (s * s - 2 * q) + s - (s * s - 4 * q) * (k + s) == s * (q + 1) + 2 * (k * q)
  {
  }

  /** (a + b)(a b + 1) + 2 A a b, the symmetric part of the chord's third coordinate. */
  function Symmetric(a: int, b: int): int {
    (a + b) * (a * b + 1) + 2 * (A * (a * b))
  }

  lemma ChordIdentity(a: int, b: int)
    ensures Right(a) + Right(b) - ((b - a) * (b - a)) * (A + (a + b)) == Symmetric(a, b)
  {
    SumsAndProducts(a, b);
    ChordCore(a + b, a * b, A);
  }

  lemma Factored(u: int)
    ensures Right(u) == u * (u * u + A * u + 1)
  {
  }

  lemma Expand(x: int, a: int, y: int, b: int, k: int)
    ensures (x + k * a + 1) * (y + k * b + 1) == x * y + k * (x * b + a * y) + (x + y) + k * k * (a * b) + k * (a + b) + 1
  {
    assert (x + k * a + 1) * (y + k * b + 1) == x * (y + k * b + 1) + (k * a) * (y + k * b + 1) + (y + k * b + 1);
  }

  lemma QuadraticProduct(a: int, b: int, k: int, s: int, q: int)
    requires s == a + b && q == a * b
    ensures (a * a + k * a + 1) * (b * b + k * b + 1) == q * q + k * (q * s) + (s * s - 2 * q) + k * k * q + k * s + 1
  {
    Expand(a * a, a, b * b, b, k);
    SumsAndProducts(a, b);
    assert (a * a) * (b * b) == (a * b) * (a * b);
    assert (a * a) * b + a * (b * b) == (a * b) * (a + b);
  }

  lemma FourTerms(q: int, w: int, x: int, y: int, z: int)
    ensures q * (w + x + y + z) == q * w + q * x + q * y + q * z
  {
  }

  lemma Regroup(q: int, k: int, s: int)
    ensures q * q - 2 * q + 1 == (q - 1) * (q - 1)
    ensures q * (k * (q * s) + k * s) == k * (q * (s * (q + 1))) && q * (k * k * q) == (k * q) * (k * q)
  {
  }

  lemma SpreadOver(q: int, k: int, s: int)
    ensures q * (q * q + k * (q * s) + (s * s - 2 * q) + k * k * q + k * s + 1)
         == q * ((q - 1) * (q - 1)) + q * (s * s) + k * (q * (s * (q + 1))) + (k * q) * (k * q)
  {
    FourTerms(q, (q - 1) * (q - 1), s * s, k * (q * s) + k * s, k * k * q);
    Regroup(q, k, s);
  }

  lemma SquareOfSum(x: int, y: int)
    ensures (x + 2 * y) * (x + 2 * y) == x * x + 4 * (x * y) + 4 * (y * y)
  {
  }

  lemma CrossTerms(s: int, e: int, k: int, q: int)
    ensures (s * e) * (k * q) == k * (q * (s * e)) && (s * e) * (s * e) == (s * s) * (e * e)
  {
  }

  lemma Collected(t: int, q: int)
    ensures t * ((q + 1) * (q + 1)) - 4 * (q * ((q - 1) * (q - 1))) - 4 * (q * t) == (t - 4 * q) * ((q - 1) * (q - 1))
  {
  }

  lemma ProductCore(s: int, q: int, k: int)
    ensures (s * (q + 1) + 2 * (k * q)) * (s * (q + 1) + 2 * (k * q))
              - 4 * (q * (q * q + k * (q * s) + (s * s - 2 * q) + k * k * q + k * s + 1))
         == (s * s - 4 * q) * ((q - 1) * (q - 1))
  {
    SpreadOver(q, k, s);
    SquareOfSum(s * (q + 1), k * q);
    CrossTerms(s, q + 1, k, q);
    Collected(s * s, q);
  }

  lemma Interleave(a: int, x: int, b: int, y: int)
    ensures (a * x) * (b * y) == (a * b) * (x * y)
  {
  }

  lemma ProductIdentity(a: int, b: int)
    ensures Symmetric(a, b) * Symmetric(a, b) - 4 * (Right(a) * Right(b)) == ((b - a) * (b - a)) * ((a * b - 1) * (a * b - 1))
  {
    Factored(a);
    Factored(b);
    Interleave(a, a * a + A * a + 1, b, b * b + A * b + 1);
    QuadraticProduct(a, b, A, a + b, a * b);
    ProductCore(a + b, a * b, A);
    SumsAndProducts(a, b);
  }

  lemma TangentIdentity(u: int, n: int)
    requires n == 3 * (u * u) + 2 * (A * u) + 1
    ensures n * n - 4 * (Right(u) * (A + 2 * u)) == (u * u - 1) * (u * u - 1)
  {
  }

  // ---------------------------------------------------------------- lines and closure

  lemma SlopeLaw(n: int, d: int)
    requires Fermat() && !Zero(d)
    ensures Eq((n * Inv(d)) * d, n)
  {
    InverseLaw(d);
    CongRefl(n, P);
    CongMul(n, n, d * Inv(d), 1, P);
    assert (n * Inv(d)) * d == n * (d * Inv(d));
  }

  /** 3 u^2 + 2 A u + 1 */
  function Derivative(u: int): int {
    3 * (u * u) + 2 * (A * u) + 1
  }

  lemma ThirdRelation(c: int, m: int, u: int, b: int, x: int)
    requires Eq(x, c * (m * m) - A - u - b)
    ensures Zero((3 * u + A - c * (m * m)) + (b - u) + (x - u))
  {
    EqSub(x, c * (m * m) - A - u - b);
    assert (3 * u + A - c * (m * m)) + (b - u) + (x - u) == x - (c * (m * m) - A - u - b);
  }

  lemma Rearrange(y: int, k: int, e: int, q: int)
    ensures y * k + (y * y) * q + y * (y * y) == y * (k - e * y) + (y * y) * (q + e + y)
  {
  }

  /** The line through (u, v) of slope m meets the curve again at x. */
  lemma LineCore(c: int, m: int, u: int, v: int, x: int, b: int)
    requires Eq(c * (v * v), Right(u)) && Eq(x, c * (m * m) - A - u - b)
    requires Zero(Derivative(u) - 2 * (c * (m * v)) - (b - u) * (x - u))
    ensures Eq(c * ((v + m * (x - u)) * (v + m * (x - u))), Right(x))
  {
    var y, e := x - u, b - u;
    var k, q := Derivative(u) - 2 * (c * (m * v)), 3 * u + A - c * (m * m);
    LineMeetsCubic(c, m, u, v, y);
    Rearrange(y, k, e, q);
    ThirdRelation(c, m, u, b, x);
    CongSym(c * (v * v), Right(u), P);
    EqSub(Right(u), c * (v * v));
    ZeroTimes(k - e * y, y);
    ZeroTimes(q + e + y, y * y);
    ZeroSum(Right(u) - c * (v * v), y * (k - e * y));
    ZeroSum(Right(u) - c * (v * v) + y * (k - e * y), (y * y) * (q + e + y));
    assert u + y == x;
    EqSub(Right(x), c * ((v + m * y) * (v + m * y)));
    CongSym(Right(x), c * ((v + m * y) * (v + m * y)), P);
  }

  lemma ThirdMeans(c: int, m: int, p: Point, b: int)
    requires p.Affine?
    ensures var t := Third(c, m, p, b);
      && t.Affine? && 0 <= t.u < P && 0 <= t.v < P
      && Eq(t.u, c * (m * m) - A - p.u - b) && Eq(t.v, -(p.v + m * (t.u - p.u)))
  {
    var x := (c * (m * m) - A - p.u - b) % P;
    CongMod(c * (m * m) - A - p.u - b, P);
    CongMod(m * (p.u - x) - p.v, P);
    assert m * (p.u - x) - p.v == -(p.v + m * (x - p.u));
  }

  lemma ThirdOnCurve(c: int, m: int, p: Point, b: int)
    requires p.Affine? && OnCurve(c, p)
    requires Zero(Derivative(p.u) - 2 * (c * (m * p.v)) - (b - p.u) * (Third(c, m, p, b).u - p.u))
    ensures OnCurve(c, Third(c, m, p, b))
  {
    var t := Third(c, m, p, b);
    ThirdMeans(c, m, p, b);
    Equation(c, p);
    LineCore(c, m, p.u, p.v, t.u, b);
    var w := p.v + m * (t.u - p.u);
    CongMul(t.v, -w, t.v, -w, P);
    CongRefl(c, P);
    CongMul(c, c, t.v * t.v, -w * -w, P);
    assert -w * -w == w * w;
    CongTrans(c * (t.v * t.v), c * (w * w), Right(t.u), P);
    SatisfiesIntro(c, t.u, t.v);
  }

  lemma FactorOut(e: int, k: int, q: int)
    ensures e * k + (e * e) * q + e * (e * e) == e * (k + e * q + e * e)
  {
  }

  lemma ChordCondition(k: int, e: int, q: int, y: int)
    ensures k - e * y == (k + e * q + e * e) - e * (q + e + y)
  {
  }

  /** A chord's line passes through its second point. */
  lemma ChordLine(c: int, m: int, u: int, v: int, b: int, w: int, x: int)
    requires Fermat() && Eq(c * (v * v), Right(u)) && Eq(c * (w * w), Right(b)) && !Zero(b - u)
    requires Eq(m * (b - u), w - v) && Eq(x, c * (m * m) - A - u - b)
    ensures Zero(Derivative(u) - 2 * (c * (m * v)) - (b - u) * (x - u))
  {
    var e, y := b - u, x - u;
    var k, q := Derivative(u) - 2 * (c * (m * v)), 3 * u + A - c * (m * m);
    SecondPoint(c, m, u, v, b, w);
    LineMeetsCubic(c, m, u, v, e);
    FactorOut(e, k, q);
    CongSym(c * (v * v), Right(u), P);
    EqSub(Right(u), c * (v * v));
    ZeroSum(Right(b) - c * ((v + m * e) * (v + m * e)), Right(u) - c * (v * v));
    assert u + e == b;
    NoZeroDivisors(e, k + e * q + e * e);
    ThirdRelation(c, m, u, b, x);
    ZeroTimes(q + e + y, e);
    ZeroSum(k + e * q + e * e, e * (q + e + y));
    ChordCondition(k, e, q, y);
  }

  lemma SecondPoint(c: int, m: int, u: int, v: int, b: int, w: int)
    requires Eq(c * (w * w), Right(b)) && Eq(m * (b - u), w - v)
    ensures Zero(Right(b) - c * ((v + m * (b - u)) * (v + m * (b - u))))
  {
    var z := v + m * (b - u);
    CongRefl(v, P);
    CongAdd(v, v, m * (b - u), w - v, P);
    CongRefl(c, P);
    CongMul(z, w, z, w, P);
    CongMul(c, c, z * z, w * w, P);
    CongTrans(c * (z * z), c * (w * w), Right(b), P);
    CongSym(c * (z * z), Right(b), P);
    EqSub(Right(b), c * (z * z));
  }

  lemma ChordMeans(c: int, p: Point, q: Point)
    requires Fermat() && p.Affine? && q.Affine? && 0 <= p.u < P && 0 <= q.u < P && p.u != q.u
    ensures !Zero(q.u - p.u) && Eq(ChordSlope(p, q) * (q.u - p.u), q.v - p.v)
  {
    EqSub(q.u, p.u);
    if Zero(q.u - p.u) {
      CongSmall(q.u, p.u, P);
    }
    SlopeLaw(q.v - p.v, q.u - p.u);
  }

  lemma ChordOnCurve(c: int, p: Point, q: Point)
    requires Fermat() && OnCurve(c, p) && OnCurve(c, q) && p.Affine? && q.Affine? && p.u != q.u
    ensures OnCurve(c, Third(c, ChordSlope(p, q), p, q.u))
  {
    var m := ChordSlope(p, q);
    ChordMeans(c, p, q);
    ThirdMeans(c, m, p, q.u);
    Equation(c, p);
    Equation(c, q);
    ChordLine(c, m, p.u, p.v, q.u, q.v, Third(c, m, p, q.u).u);
    ThirdOnCurve(c, m, p, q.u);
  }

  lemma SameSquare(c: int, v: int, w: int, r: int)
    requires Fermat() && !Zero(c) && 0 <= v < P && 0 <= w < P && Eq(c * (v * v), r) && Eq(c * (w * w), r)
    ensures v == w || Zero(v + w)
  {
    CongSym(c * (w * w), r, P);
    CongTrans(c * (v * v), r, c * (w * w), P);
    Cancel(v * v, w * w, c);
    EqSub(v * v, w * w);
    assert v * v - w * w == (v - w) * (v + w);
    NoZeroDivisors(v - w, v + w);
    EqSub(v, w);
    if Zero(v - w) {
      CongSmall(v, w, P);
    }
  }

  /** Two points with the same u are equal or opposite. */
  lemma SameU(c: int, p: Point, q: Point)
    requires Fermat() && !Zero(c) && OnCurve(c, p) && OnCurve(c, q) && p.Affine? && q.Affine? && p.u == q.u
    ensures p == q || (p.v + q.v) % P == 0
  {
    Equation(c, p);
    Equation(c, q);
    SameSquare(c, p.v, q.v, Right(p.u));
    CongIff(p.v + q.v, 0, P);
  }

  lemma TangentMeans(c: int, p: Point)
    requires Fermat() && !Zero(c) && p.Affine? && (p.v + p.v) % P != 0
    ensures !Zero(2 * (c * p.v)) && Eq(TangentSlope(c, p) * (2 * (c * p.v)), Derivative(p.u))
  {
    OneNotZero();
    CongIff(p.v + p.v, 0, P);
    if Zero(p.v) {
      ZeroSum(p.v, p.v);
    }
    ProductNotZero(c, p.v);
    ProductNotZero(2, c * p.v);
    SlopeLaw(Derivative(p.u), 2 * (c * p.v));
  }

  lemma TangentLine(c: int, m: int, v: int, n: int, y: int, e: int)
    requires Eq(m * (2 * (c * v)), n) && e == 0
    ensures Zero(n - 2 * (c * (m * v)) - e * y)
  {
    CongSym(m * (2 * (c * v)), n, P);
    EqSub(n, m * (2 * (c * v)));
    assert m * (2 * (c * v)) == 2 * (c * (m * v));
  }

  lemma TangentOnCurve(c: int, p: Point)
    requires Fermat() && !Zero(c) && OnCurve(c, p) && p.Affine? && (p.v + p.v) % P != 0
    ensures OnCurve(c, Third(c, TangentSlope(c, p), p, p.u))
  {
    var m := TangentSlope(c, p);
    TangentMeans(c, p);
    TangentLine(c, m, p.v, Derivative(p.u), Third(c, m, p, p.u).u - p.u, p.u - p.u);
    ThirdOnCurve(c, m, p, p.u);
  }

  /** The sum of two curve points is a curve point. */
  lemma AddOnCurve(c: int, p: Point, q: Point)
    requires Fermat() && !Zero(c) && OnCurve(c, p) && OnCurve(c, q)
    ensures OnCurve(c, Add(c, p, q))
  {
    if p.Affine? && q.Affine? {
      if p.u != q.u {
        ChordOnCurve(c, p, q);
      } else if (p.v + q.v) % P != 0 {
        SameU(c, p, q);
        TangentOnCurve(c, p);
      }
    }
  }

  lemma Mirrored(c: int, v: int, w: int, r: int)
    requires Eq(w, -v) && Eq(c * (v * v), r)
    ensures Eq(c * (w * w), r) && Zero(v + w)
  {
    CongMul(w, -v, w, -v, P);
    CongRefl(c, P);
    CongMul(c, c, w * w, -v * -v, P);
    assert -v * -v == v * v;
    CongTrans(c * (w * w), c * (v * v), r, P);
    CongRefl(v, P);
    CongAdd(v, v, w, -v, P);
  }

  lemma NegOnCurve(c: int, p: Point)
    requires OnCurve(c, p)
    ensures OnCurve(c, Neg(p)) && Add(c, p, Neg(p)) == Infinity
    ensures p.Affine? ==> Eq(Neg(p).v, -p.v)
  {
    if p.Affine? {
      var w := (-p.v) % P;
      Equation(c, p);
      CongMod(-p.v, P);
      Mirrored(c, p.v, w, Right(p.u));
      SatisfiesIntro(c, p.u, w);
      CongIff(p.v + w, 0, P);
    }
  }

  // ---------------------------------------------------------------- laws of the u-coordinate

  lemma ChordScaled(c: int, m: int, d: int, k: int)
    ensures (d * d) * (c * (m * m) - k) == c * ((m * d) * (m * d)) - (d * d) * k
  {
    assert (d * d) * (c * (m * m)) == c * ((m * d) * (m * d));
  }

  lemma SquareOfDifference(c: int, v: int, w: int)
    ensures c * ((w - v) * (w - v)) == c * (v * v) + c * (w * w) - 2 * (c * (v * w))
  {
  }

  /** (b - a)^2 x for the chord through (a, v) and (b, w), whose third point is at x. */
  lemma ChordU(c: int, m: int, a: int, v: int, b: int, w: int, x: int)
    requires Eq(c * (v * v), Right(a)) && Eq(c * (w * w), Right(b))
    requires Eq(m * (b - a), w - v) && Eq(x, c * (m * m) - (A + (a + b)))
    ensures Eq(((b - a) * (b - a)) * x, Symmetric(a, b) - 2 * (c * (v * w)))
  {
    var d, k := b - a, A + (a + b);
    CongRefl(d * d, P);
    CongMul(d * d, d * d, x, c * (m * m) - k, P);
    ChordScaled(c, m, d, k);
    SlopeSquared(c, m * d, v, w, Right(a), Right(b));
    ChordIdentity(a, b);
    var g := (d * d) * k;
    CongRefl(g, P);
    CongAdd(c * ((m * d) * (m * d)), Right(a) + Right(b) - 2 * (c * (v * w)), g, g, P);
    CongTrans((d * d) * x, c * ((m * d) * (m * d)) - g, Symmetric(a, b) - 2 * (c * (v * w)), P);
  }

  lemma SlopeSquared(c: int, t: int, v: int, w: int, r: int, s: int)
    requires Eq(t, w - v) && Eq(c * (v * v), r) && Eq(c * (w * w), s)
    ensures Eq(c * (t * t), r + s - 2 * (c * (v * w)))
  {
    CongMul(t, w - v, t, w - v, P);
    CongRefl(c, P);
    CongMul(c, c, t * t, (w - v) * (w - v), P);
    SquareOfDifference(c, v, w);
    CongAdd(c * (v * v), r, c * (w * w), s, P);
    CongRefl(2 * (c * (v * w)), P);
    CongAdd(c * (v * v) + c * (w * w), r + s, 2 * (c * (v * w)), 2 * (c * (v * w)), P);
    CongTrans(c * (t * t), c * ((w - v) * (w - v)), r + s - 2 * (c * (v * w)), P);
  }

  lemma ProductOfConjugates(d: int, x: int, y: int, s: int, t: int)
    ensures (d * x) * (d * y) == d * (d * (x * y)) && (s - t) * (s + t) == s * s - t * t
  {
  }

  lemma CrossSquare(c: int, v: int, w: int)
    ensures (2 * (c * (v * w))) * (2 * (c * (v * w))) == 4 * ((c * (v * v)) * (c * (w * w)))
  {
  }

  /** The two coordinates x = u(p + q) and y = u(p - q) satisfy (b - a)^2 x y = (a b - 1)^2. */
  lemma Differential(c: int, a: int, v: int, b: int, w: int, x: int, y: int)
    requires Fermat() && !Zero(b - a) && Eq(c * (v * v), Right(a)) && Eq(c * (w * w), Right(b))
    requires Eq(((b - a) * (b - a)) * x, Symmetric(a, b) - 2 * (c * (v * w)))
    requires Eq(((b - a) * (b - a)) * y, Symmetric(a, b) + 2 * (c * (v * w)))
    ensures Eq(((b - a) * (b - a)) * (x * y), (a * b - 1) * (a * b - 1))
  {
    var d, s, t := (b - a) * (b - a), Symmetric(a, b), 2 * (c * (v * w));
    CongMul(d * x, s - t, d * y, s + t, P);
    ProductOfConjugates(d, x, y, s, t);
    CrossSquare(c, v, w);
    CongMul(c * (v * v), Right(a), c * (w * w), Right(b), P);
    CongRefl(4, P);
    CongMul(4, 4, (c * (v * v)) * (c * (w * w)), Right(a) * Right(b), P);
    CongRefl(s * s, P);
    CongAdd(s * s, s * s, t * t, 4 * (Right(a) * Right(b)), P);
    ProductIdentity(a, b);
    CongTrans(d * (d * (x * y)), s * s - t * t, d * ((a * b - 1) * (a * b - 1)), P);
    ProductNotZero(b - a, b - a);
    Cancel(d * (x * y), (a * b - 1) * (a * b - 1), d);
  }

  lemma OppositeCross(c: int, v: int, w: int, z: int, s: int, g: int)
    requires Eq(z, -w) && Eq(g, s - 2 * (c * (v * z)))
    ensures Eq(g, s + 2 * (c * (v * w)))
  {
    CongRefl(2 * (c * v), P);
    CongMul(2 * (c * v), 2 * (c * v), z, -w, P);
    assert (2 * (c * v)) * z == 2 * (c * (v * z)) && (2 * (c * v)) * -w == -(2 * (c * (v * w)));
    CongRefl(s, P);
    CongAdd(s, s, 2 * (c * (v * z)), -(2 * (c * (v * w))), P);
    CongTrans(g, s - 2 * (c * (v * z)), s + 2 * (c * (v * w)), P);
  }

  lemma ChordCoordinate(c: int, p: Point, q: Point)
    requires Fermat() && OnCurve(c, p) && OnCurve(c, q) && p.Affine? && q.Affine? && p.u != q.u
    ensures !Zero(q.u - p.u)
    ensures Eq(((q.u - p.u) * (q.u - p.u)) * UOf(Add(c, p, q)), Symmetric(p.u, q.u) - 2 * (c * (p.v * q.v)))
  {
    var m := ChordSlope(p, q);
    ChordMeans(c, p, q);
    ThirdMeans(c, m, p, q.u);
    Equation(c, p);
    Equation(c, q);
    assert c * (m * m) - A - p.u - q.u == c * (m * m) - (A + (p.u + q.u));
    ChordU(c, m, p.u, p.v, q.u, q.v, UOf(Add(c, p, q)));
  }

  /** Differential addition: (u(q) - u(p))^2 u(p + q) u(p - q) = (u(p) u(q) - 1)^2. */
  lemma DifferentialAddition(c: int, p: Point, q: Point)
    requires Fermat() && OnCurve(c, p) && OnCurve(c, q) && p.Affine? && q.Affine? && p.u != q.u
    ensures !Zero(q.u - p.u)
    ensures Eq(((q.u - p.u) * (q.u - p.u)) * (UOf(Add(c, p, q)) * UOf(Add(c, p, Neg(q)))),
               (p.u * q.u - 1) * (p.u * q.u - 1))
  {
    var s, d := Symmetric(p.u, q.u), (q.u - p.u) * (q.u - p.u);
    NegOnCurve(c, q);
    ChordCoordinate(c, p, q);
    ChordCoordinate(c, p, Neg(q));
    OppositeCross(c, p.v, q.v, Neg(q).v, s, d * UOf(Add(c, p, Neg(q))));
    Equation(c, p);
    Equation(c, q);
    Differential(c, p.u, p.v, q.u, q.v, UOf(Add(c, p, q)), UOf(Add(c, p, Neg(q))));
  }

  lemma TangentScaled(c: int, v: int, m: int, k: int)
    ensures (4 * (c * (v * v))) * (c * (m * m) - k) == (m * (2 * (c * v))) * (m * (2 * (c * v))) - 4 * ((c * (v * v)) * k)
  {
    assert (4 * (c * (v * v))) * (c * (m * m)) == (m * (2 * (c * v))) * (m * (2 * (c * v)));
  }

  /** 4 r x for the tangent at (u, v), where r and n are the right side and its derivative. */
  lemma TangentU(c: int, m: int, v: int, x: int, k: int, r: int, n: int)
    requires Eq(c * (v * v), r) && Eq(m * (2 * (c * v)), n) && Eq(x, c * (m * m) - k)
    ensures Eq((4 * r) * x, n * n - 4 * (r * k))
  {
    var w := c * (v * v);
    CongRefl(4, P);
    CongMul(4, 4, w, r, P);
    CongSym(4 * w, 4 * r, P);
    CongMul(4 * r, 4 * w, x, c * (m * m) - k, P);
    TangentScaled(c, v, m, k);
    CongMul(m * (2 * (c * v)), n, m * (2 * (c * v)), n, P);
    CongRefl(k, P);
    CongMul(w, r, k, k, P);
    CongMul(4, 4, w * k, r * k, P);
    CongAdd((m * (2 * (c * v))) * (m * (2 * (c * v))), n * n, 4 * (w * k), 4 * (r * k), P);
    CongTrans((4 * r) * x, (4 * w) * (c * (m * m) - k), n * n - 4 * (r * k), P);
  }

  /** Doubling: 4 (u^3 + A u^2 + u) u(2 p) = (u^2 - 1)^2, and 2 p is affine unless v = 0. */
  lemma Doubling(c: int, p: Point)
    requires Fermat() && !Zero(c) && OnCurve(c, p) && p.Affine?
    ensures Add(c, p, p).Affine? <==> !Zero(Right(p.u))
    ensures Add(c, p, p).Affine? ==> Eq((4 * Right(p.u)) * UOf(Add(c, p, p)), (p.u * p.u - 1) * (p.u * p.u - 1))
  {
    Equation(c, p);
    OrderTwoIff(c, p.v, Right(p.u));
    if (p.v + p.v) % P != 0 {
      var m := TangentSlope(c, p);
      TangentMeans(c, p);
      ThirdMeans(c, m, p, p.u);
      assert c * (m * m) - A - p.u - p.u == c * (m * m) - (A + 2 * p.u);
      TangentU(c, m, p.v, UOf(Add(c, p, p)), A + 2 * p.u, Right(p.u), Derivative(p.u));
      TangentIdentity(p.u, Derivative(p.u));
    }
  }

  lemma OrderTwoIff(c: int, v: int, r: int)
    requires Fermat() && !Zero(c) && Eq(c * (v * v), r)
    ensures (v + v) % P == 0 <==> Zero(r)
  {
    CongIff(v + v, 0, P);
    OneNotZero();
    CongSym(c * (v * v), r, P);
    if Zero(v) {
      ZeroSum(v, v);
      ZeroTimes(v, v);
      ZeroTimes(v * v, c);
      CongTrans(r, c * (v * v), 0, P);
    } else {
      ProductNotZero(v, v);
      ProductNotZero(c, v * v);
      ProductNotZero(2, v);
      assert 2 * v == v + v;
      if Zero(r) {
        CongTrans(c * (v * v), r, 0, P);
      }
    }
  }

  // ---------------------------------------------------------------- multiples

  lemma {:induction false} MultipleOnCurve(c: int, n: nat, p: Point)
    requires Fermat() && !Zero(c) && OnCurve(c, p)
    ensures OnCurve(c, Multiple(c, n, p))
  {
    if n > 0 {
      MultipleOnCurve(c, n - 1, p);
      AddOnCurve(c, p, Multiple(c, n - 1, p));
    }
  }

  lemma {:induction false} MultipleAdd(c: int, n: nat, m: nat, p: Point)
    requires Fermat() && !Zero(c) && Associative(c) && OnCurve(c, p)
    ensures Multiple(c, n + m, p) == Add(c, Multiple(c, n, p), Multiple(c, m, p))
  {
    if n > 0 {
      MultipleAdd(c, n - 1, m, p);
      MultipleOnCurve(c, n - 1, p);
      MultipleOnCurve(c, m, p);
      assert AssociativeAt(c, p, Multiple(c, n - 1, p), Multiple(c, m, p));
    }
  }

  /** Neighbouring multiples differ by p. */
  lemma Neighbours(c: int, n: nat, p: Point)
    requires Fermat() && !Zero(c) && Associative(c) && OnCurve(c, p)
    ensures Add(c, Multiple(c, n + 1, p), Neg(Multiple(c, n, p))) == p
  {
    var q := Multiple(c, n, p);
    MultipleOnCurve(c, n, p);
    NegOnCurve(c, q);
    assert AssociativeAt(c, p, q, Neg(q));
  }

  /** Every u-coordinate is that of a point, for some c that is not 0. */
  lemma EveryCoordinate(u: int) returns (c: int, v: int)
    requires 0 <= u < P
    ensures !Zero(c) && OnCurve(c, Affine(u, v))
  {
    OneNotZero();
    if Zero(Right(u)) {
      c, v := 1, 0;
      CongSym(Right(u), 0, P);
    } else {
      c, v := Right(u), 1;
      CongRefl(Right(u), P);
    }
    SatisfiesIntro(c, u, v);
  }
}
