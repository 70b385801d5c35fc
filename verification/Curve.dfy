/** The edwards448 group x^2 + y^2 = 1 + D x^2 y^2 in affine coordinates: the simple model that
    the fast formulas must equal. The addition law is complete because D is not a square. */
module Curve {
  import opened Congruence
  import opened Prime448
  import opened Field

  const D: int := -39081

  datatype Point = Point(x: int, y: int)

  const Identity: Point := Point(0, 1)

  /** How far (x, y) is from satisfying the curve equation. */
  function Defect(x: int, y: int): int {
    x * x + y * y - 1 - D * (x * x) * (y * y)
  }

  /** A guard: a definition quantified over q with Unfold(p, q) is expanded by the verifier only
      where a proof asserts Unfold(p, p), which keeps its products out of all other contexts. */
  predicate Unfold(p: Point, q: Point) {
    q == p
  }

  /** Canonical coordinates that satisfy the curve equation. */
  ghost predicate OnCurve(p: Point) {
    forall q: Point {:trigger Unfold(p, q)} :: Unfold(p, q) ==> 0 <= q.x < P && 0 <= q.y < P && Zero(Defect(q.x, q.y))
  }

  lemma CurvePoint(p: Point)
    requires OnCurve(p)
    ensures 0 <= p.x < P && 0 <= p.y < P && Zero(Defect(p.x, p.y))
  {
    assert Unfold(p, p);
  }

  ghost predicate RootOfD(r: int, s: int) {
    Eq(r * r, D * (s * s))
  }

  /** Hypothesis: D is not a square modulo P. */
  ghost predicate NonSquareD() {
    forall r: int, s: int :: RootOfD(r, s) ==> Zero(s)
  }

  ghost predicate FieldFacts() {
    Fermat() && NonSquareD()
  }

  function Cross(p: Point, q: Point): int {
    D * (p.x * q.x) * (p.y * q.y)
  }

  function NumX(p: Point, q: Point): int {
    p.x * q.y + p.y * q.x
  }

  function NumY(p: Point, q: Point): int {
    p.y * q.y - p.x * q.x
  }

  /** Affine addition, as the reference model computes it. */
  function Add(p: Point, q: Point): Point {
    Point(NumX(p, q) * Inv(1 + Cross(p, q)) % P,
          NumY(p, q) * Inv(1 - Cross(p, q)) % P)
  }

  function Neg(p: Point): Point {
    Point((-p.x) % P, p.y)
  }

  // ---------------------------------------------------------------- completeness

  lemma SquareOfSum(a: int, b: int)
    ensures (a + b) * (a + b) == a * a + 2 * (a * b) + b * b
  {
  }

  lemma SquareOfDifference(a: int, b: int)
    ensures (a - b) * (a - b) == a * a - 2 * (a * b) + b * b
  {
  }

  lemma SquareOfProduct(a: int, b: int)
    ensures (a * b) * (a * b) == (a * a) * (b * b)
  {
  }

  /** x^2 + y^2 from the defect. */
  lemma DefectForm(x: int, y: int)
    ensures x * x + y * y == 1 + D * ((x * y) * (x * y)) + Defect(x, y)
  {
    SquareOfProduct(x, y);
  }

  lemma UnitSquare(x: int, y: int, e: int)
    requires e == 1 || e == -1
    ensures (x + e * y) * (x + e * y) == x * x + y * y + 2 * (e * (x * y))
  {
    SquareOfSum(x, e * y);
  }

  lemma ScaledSquare(p: int, x: int, y: int)
    ensures (p * (x + y)) * (p * (x + y)) == (p * p) * (x * x + y * y) + 2 * ((p * p) * (x * y))
  {
    SquareOfProduct(p, x + y);
    SquareOfSum(x, y);
    SpreadOver(p * p, x * x + y * y, x * y);
  }

  lemma SpreadOver(c: int, a: int, b: int)
    ensures c * (a + 2 * b) == c * a + 2 * (c * b)
  {
  }

  lemma CrossCore(w1: int, e1: int, w2: int, e2: int, p: int, t: int, e: int)
    requires w1 * w2 == t * t && e * e == 1
    ensures (1 + w1 + e1) + 2 * (e * p) - w1 * (1 + w2 + e2) - 2 * (p * t) == e1 - w1 * e2 - (t + e + 2 * p) * (t - e)
  {
    assert (t + e + 2 * p) * (t - e) == t * t - e * e + 2 * (p * t) - 2 * (e * p);
  }

  lemma CrossSquare(p: int, q: int)
    ensures (D * (p * p)) * (D * (q * q)) == (D * (p * q)) * (D * (p * q))
    ensures D * ((p * p) * q) == p * (D * (p * q))
  {
    SquareOfProduct(p, q);
    SquareOfProduct(D, p * q);
  }

  lemma WeightFirst(p2: int, c: int)
    ensures D * (p2 * c) == (D * p2) * c
  {
  }

  /** (x1 + e y1)^2 - D (x1 y1 (x2 + y2))^2 as a combination of the two curve equations and
      the deviation of the cross term from e. */
  lemma CrossIdentity(x1: int, y1: int, x2: int, y2: int, e: int, p: int, t: int)
    requires (e == 1 || e == -1) && p == x1 * y1 && t == D * (p * (x2 * y2))
    ensures (x1 + e * y1) * (x1 + e * y1) - D * ((p * (x2 + y2)) * (p * (x2 + y2)))
         == Defect(x1, y1) - (D * (p * p)) * Defect(x2, y2) - (t + e + 2 * p) * (t - e)
  {
    var q := x2 * y2;
    var w1, e1, w2, e2 := D * (p * p), Defect(x1, y1), D * (q * q), Defect(x2, y2);
    DefectForm(x1, y1);
    DefectForm(x2, y2);
    UnitSquare(x1, y1, e);
    ScaledSquare(p, x2, y2);
    CrossSquare(p, q);
    CrossCore(w1, e1, w2, e2, p, t, e);
    WeightFirst(p * p, x2 * x2 + y2 * y2);
  }

  /** On the curve, (x1 + e y1)^2 and D (x1 y1 (x2 + y2))^2 differ by a multiple of the deviation
      of the cross term from e. */
  lemma CrossResidue(x1: int, y1: int, x2: int, y2: int, e: int)
    requires e == 1 || e == -1
    requires Zero(Defect(x1, y1)) && Zero(Defect(x2, y2))
    ensures var r, s, t := x1 + e * y1, x1 * y1 * (x2 + y2), D * (x1 * x2) * (y1 * y2);
      Zero(r * r - D * (s * s) + (t + e + 2 * (x1 * y1)) * (t - e))
  {
    var p, e1, e2 := x1 * y1, Defect(x1, y1), Defect(x2, y2);
    var t, w1 := D * (p * (x2 * y2)), D * (p * p);
    CrossRegroup(x1, y1, x2, y2);
    CrossIdentity(x1, y1, x2, y2, e, p, t);
    ZeroTimes(e2, w1);
    ZeroSum(e1, w1 * e2);
  }

  /** With a cross term of e, D is the square of (x1 + e y1) / (x1 y1 (x2 + y2)). */
  lemma RootFromResidue(r: int, s: int, k: int, gap: int)
    requires Zero(r * r - D * (s * s) + k * gap) && Zero(gap)
    ensures RootOfD(r, s)
  {
    ZeroTimes(gap, k);
    ZeroSum(r * r - D * (s * s) + k * gap, k * gap);
    EqSub(r * r, D * (s * s));
  }

  lemma CrossRegroup(x1: int, y1: int, x2: int, y2: int)
    ensures D * (x1 * x2) * (y1 * y2) == D * ((x1 * y1) * (x2 * y2))
  {
  }

  lemma NegatedDefect(x: int, y: int)
    ensures Defect(x, -y) == Defect(x, y)
  {
  }

  lemma CrossFactors(x1: int, y1: int, x2: int, y2: int)
    ensures D * (x1 * x2) * (y1 * y2) == (x1 * y1) * (D * x2 * y2)
    ensures D * (x1 * x2) * (-y1 * -y2) == D * (x1 * x2) * (y1 * y2)
    ensures D * (x1 * x2) * (y1 * y2) == x2 * (D * x1 * y1 * y2)
  {
  }

  /** The cross term is never 1 or -1 on the curve. */
  lemma CrossNotUnit(x1: int, y1: int, x2: int, y2: int, e: int)
    requires FieldFacts() && (e == 1 || e == -1)
    requires Zero(Defect(x1, y1)) && Zero(Defect(x2, y2))
    ensures !Zero(D * (x1 * x2) * (y1 * y2) - e)
  {
    var t := D * (x1 * x2) * (y1 * y2);
    CrossResidue(x1, y1, x2, y2, e);
    NegatedDefect(x1, y1);
    NegatedDefect(x2, y2);
    CrossFactors(x1, y1, x2, y2);
    CrossResidue(x1, -y1, x2, -y2, e);
    if Zero(t - e) {
      RootFromResidue(x1 + e * y1, x1 * y1 * (x2 + y2), t + e + 2 * (x1 * y1), t - e);
      RootFromResidue(x1 + e * -y1, x1 * -y1 * (x2 + -y2), t + e + 2 * (x1 * -y1), t - e);
      CrossContradiction(x1, y1, x2, y2, e);
    }
  }

  lemma FlippedProduct(p: int, x: int, y: int, u: int, v: int)
    requires p == x * y
    ensures -1 * (x * -y * (u + -v)) == p * (u - v)
  {
    assert x * -y == -(x * y);
  }

  lemma SumAndDifference(u: int, v: int)
    requires Fermat() && Zero(u + v) && Zero(u - v)
    ensures Zero(u)
  {
    ZeroSum(u + v, u - v);
    OneNotZero();
    NoZeroDivisors(2, u);
  }

  /** A product that vanishes with both u + v and u - v, one factor not zero. */
  lemma BothSigns(p: int, u: int, v: int)
    requires Fermat() && !Zero(p) && Zero(p * (u + v)) && Zero(p * (u - v))
    ensures Zero(u)
  {
    NoZeroDivisors(p, u + v);
    NoZeroDivisors(p, u - v);
    SumAndDifference(u, v);
  }

  lemma UnitProduct(t: int, e: int, p: int, c: int)
    requires Zero(t - e) && (e == 1 || e == -1) && t == p * c
    ensures !Zero(p)
  {
    ZeroSumUnit(t, e);
    if Zero(p) {
      ZeroTimes(p, c);
    }
  }

  lemma CrossContradiction(x1: int, y1: int, x2: int, y2: int, e: int)
    requires FieldFacts() && (e == 1 || e == -1)
    requires RootOfD(x1 + e * y1, x1 * y1 * (x2 + y2)) && RootOfD(x1 + e * -y1, x1 * -y1 * (x2 + -y2))
    ensures !Zero(D * (x1 * x2) * (y1 * y2) - e)
  {
    var t, p := D * (x1 * x2) * (y1 * y2), x1 * y1;
    assert Zero(p * (x2 + y2)) && Zero(x1 * -y1 * (x2 + -y2));
    ZeroTimes(x1 * -y1 * (x2 + -y2), -1);
    FlippedProduct(p, x1, y1, x2, y2);
    if Zero(t - e) {
      CrossFactors(x1, y1, x2, y2);
      UnitProduct(t, e, p, D * x2 * y2);
      BothSigns(p, x2, y2);
      UnitProduct(t, e, x2, D * x1 * y1 * y2);
    }
  }

  lemma ZeroSumUnit(t: int, e: int)
    requires Zero(t - e) && (e == 1 || e == -1)
    ensures !Zero(t)
  {
    OneNotZero();
    if Zero(t) {
      ZeroSum(t, t - e);
      ZeroTimes(e, -1);
    }
  }

  lemma DenominatorsNotZero(p: Point, q: Point)
    requires FieldFacts() && OnCurve(p) && OnCurve(q)
    ensures !Zero(1 + Cross(p, q)) && !Zero(1 - Cross(p, q))
  {
    CurvePoint(p);
    CurvePoint(q);
    CrossNotUnit(p.x, p.y, q.x, q.y, 1);
    CrossNotUnit(p.x, p.y, q.x, q.y, -1);
    if Zero(1 - Cross(p, q)) {
      ZeroTimes(1 - Cross(p, q), -1);
    }
  }

  // ---------------------------------------------------------------- closure

  /** The curve equation of (n / (1 + t), m / (1 - t)) with denominators cleared. */
  function ClearedDefect(n: int, m: int, t: int): int {
    (n * n) * ((1 - t) * (1 - t)) + (m * m) * ((1 + t) * (1 + t))
      - ((1 + t) * (1 + t)) * ((1 - t) * (1 - t)) - D * ((n * n) * (m * m))
  }

  lemma ClearedExpanded(n: int, m: int, t: int)
    ensures ClearedDefect(n, m, t)
         == (n * n + m * m) * (1 + t * t) + 2 * (t * (m * m - n * n)) - (1 - t * t) * (1 - t * t) - D * ((n * m) * (n * m))
  {
    SquareOfProduct(n, m);
    SquareOfProduct(1 + t, 1 - t);
    assert (1 + t) * (1 - t) == 1 - t * t;
    WeightedSquares(n * n, m * m, t);
  }

  lemma WeightedSquares(a: int, b: int, t: int)
    ensures a * ((1 - t) * (1 - t)) + b * ((1 + t) * (1 + t)) == (a + b) * (1 + t * t) + 2 * (t * (b - a))
  {
  }

  lemma SumOfSquares(x1: int, y1: int, x2: int, y2: int)
    ensures (x1 * y2 + y1 * x2) * (x1 * y2 + y1 * x2) + (y1 * y2 - x1 * x2) * (y1 * y2 - x1 * x2)
         == (x1 * x1 + y1 * y1) * (x2 * x2 + y2 * y2)
  {
  }

  lemma ProductOfNumerators(x1: int, y1: int, x2: int, y2: int)
    ensures (x1 * y2 + y1 * x2) * (y1 * y2 - x1 * x2)
         == (x1 * y1) * (y2 * y2 - x2 * x2) + (x2 * y2) * (y1 * y1 - x1 * x1)
  {
  }

  lemma SwapFactors(x1: int, y1: int, x2: int, y2: int)
    ensures (x1 * y2) * (y1 * x2) == (x1 * y1) * (x2 * y2) && (y1 * y2) * (x1 * x2) == (x1 * y1) * (x2 * y2)
  {
  }

  lemma DifferenceCore(a: int, b: int, c: int, d: int, n2: int, m2: int, z: int)
    requires m2 == b * d - 2 * z + a * c && n2 == a * d + 2 * z + b * c
    ensures m2 - n2 == (b - a) * (d - c) - 4 * z
  {
  }

  lemma DifferenceOfSquares(x1: int, y1: int, x2: int, y2: int)
    ensures (y1 * y2 - x1 * x2) * (y1 * y2 - x1 * x2) - (x1 * y2 + y1 * x2) * (x1 * y2 + y1 * x2)
         == (y1 * y1 - x1 * x1) * (y2 * y2 - x2 * x2) - 4 * ((x1 * y1) * (x2 * y2))
  {
    SquareOfDifference(y1 * y2, x1 * x2);
    SquareOfSum(x1 * y2, y1 * x2);
    SquareOfProduct(y1, y2);
    SquareOfProduct(x1, x2);
    SquareOfProduct(x1, y2);
    SquareOfProduct(y1, x2);
    SwapFactors(x1, y1, x2, y2);
    DifferenceCore(x1 * x1, y1 * y1, x2 * x2, y2 * y2, (x1 * y2 + y1 * x2) * (x1 * y2 + y1 * x2),
                   (y1 * y2 - x1 * x2) * (y1 * y2 - x1 * x2), (x1 * y1) * (x2 * y2));
  }

  lemma DifferenceSquared(x: int, y: int)
    ensures (y * y - x * x) * (y * y - x * x) == (x * x + y * y) * (x * x + y * y) - 4 * ((x * y) * (x * y))
  {
    SquareOfProduct(x, y);
    SquareOfSum(x * x, y * y);
    SquareOfDifference(y * y, x * x);
  }

  /** p^2 v^2 with v^2 = s^2 - 4 q^2 */
  lemma ReplaceSquare(p: int, v: int, s: int, q: int)
    requires v * v == s * s - 4 * (q * q)
    ensures (p * v) * (p * v) == (p * p) * (s * s) - 4 * ((p * q) * (p * q))
  {
    SquareOfProduct(p, v);
    SquareOfProduct(p, q);
    SpreadLess(p * p, s * s, q * q);
  }

  lemma SpreadLess(c: int, a: int, b: int)
    ensures c * (a - 4 * b) == c * a - 4 * (c * b)
  {
  }

  /** Eliminating v1 and v2: only s1, s2 and the products x y remain. */
  lemma Eliminate(s1: int, v1: int, p: int, s2: int, v2: int, q: int)
    requires v1 * v1 == s1 * s1 - 4 * (p * p) && v2 * v2 == s2 * s2 - 4 * (q * q)
    ensures 2 * (D * (p * q) * (v1 * v2 - 4 * (p * q))) - D * ((p * v2 + q * v1) * (p * v2 + q * v1))
         == -(D * (p * p) * (s2 * s2)) - D * (q * q) * (s1 * s1)
  {
    ReplaceSquare(p, v2, s2, q);
    ReplaceSquare(q, v1, s1, p);
    SquareOfSum(p * v2, q * v1);
    SwapFactors(p, v2, q, v1);
    assert (p * v2) * (q * v1) == (p * q) * (v1 * v2);
    SpreadLess(p * q, v1 * v2, p * q);
    assert (q * p) * (q * p) == (p * q) * (p * q);
  }

  lemma RemainderProduct(a: int, b: int, e1: int, e2: int, z: int)
    ensures (a + e1) * (b + e2) * z == a * b * z + e1 * (z * (b + e2)) + e2 * (z * a)
  {
  }

  lemma RemainderSquare(w: int, b: int, e: int)
    ensures w * ((b + e) * (b + e)) == w * (b * b) + e * (w * (2 * b + e))
  {
  }

  lemma RemainderVanishes(w1: int, w2: int)
    ensures (1 + w1) * (1 + w2) * (1 + w1 * w2) - (1 - w1 * w2) * (1 - w1 * w2)
              - w1 * ((1 + w2) * (1 + w2)) - w2 * ((1 + w1) * (1 + w1)) == 0
  {
  }

  lemma DistributeDifference(e: int, p: int, q: int)
    ensures e * (p - q) == e * p - e * q
  {
  }

  /** With s = 1 + w + e on each side the remainder is a combination of e1 and e2. */
  lemma Remainder(w1: int, e1: int, w2: int, e2: int)
    ensures (1 + w1 + e1) * (1 + w2 + e2) * (1 + w1 * w2) - (1 - w1 * w2) * (1 - w1 * w2)
              - w1 * ((1 + w2 + e2) * (1 + w2 + e2)) - w2 * ((1 + w1 + e1) * (1 + w1 + e1))
         == e1 * ((1 + w1 * w2) * (1 + w2 + e2) - w2 * (2 * (1 + w1) + e1))
            + e2 * ((1 + w1 * w2) * (1 + w1) - w1 * (2 * (1 + w2) + e2))
  {
    var a, b, z := 1 + w1, 1 + w2, 1 + w1 * w2;
    RemainderProduct(a, b, e1, e2, z);
    RemainderSquare(w1, b, e2);
    RemainderSquare(w2, a, e1);
    RemainderVanishes(w1, w2);
    DistributeDifference(e1, z * (b + e2), w2 * (2 * a + e1));
    DistributeDifference(e2, z * a, w1 * (2 * b + e2));
  }

  /** The curve equation of the sum, cleared of denominators, as its remainder. */
  lemma ClearedRemainder(x1: int, y1: int, x2: int, y2: int, s1: int, s2: int, w1: int, w2: int)
    requires s1 == x1 * x1 + y1 * y1 && s2 == x2 * x2 + y2 * y2
    requires w1 == D * ((x1 * y1) * (x1 * y1)) && w2 == D * ((x2 * y2) * (x2 * y2))
    ensures ClearedDefect(x1 * y2 + y1 * x2, y1 * y2 - x1 * x2, D * ((x1 * y1) * (x2 * y2)))
         == s1 * s2 * (1 + w1 * w2) - (1 - w1 * w2) * (1 - w1 * w2) - w1 * (s2 * s2) - w2 * (s1 * s1)
  {
    var n, m, p, q := x1 * y2 + y1 * x2, y1 * y2 - x1 * x2, x1 * y1, x2 * y2;
    var v1, v2 := y1 * y1 - x1 * x1, y2 * y2 - x2 * x2;
    var t := D * (p * q);
    ClearedExpanded(n, m, t);
    SumOfSquares(x1, y1, x2, y2);
    ProductOfNumerators(x1, y1, x2, y2);
    DifferenceOfSquares(x1, y1, x2, y2);
    DifferenceSquared(x1, y1);
    DifferenceSquared(x2, y2);
    Eliminate(s1, v1, p, s2, v2, q);
    CrossSquare(p, q);
  }

  lemma ClosureZero(x1: int, y1: int, x2: int, y2: int)
    requires Zero(Defect(x1, y1)) && Zero(Defect(x2, y2))
    ensures Zero(ClearedDefect(x1 * y2 + y1 * x2, y1 * y2 - x1 * x2, D * ((x1 * y1) * (x2 * y2))))
  {
    var s1, s2 := x1 * x1 + y1 * y1, x2 * x2 + y2 * y2;
    var w1, e1 := D * ((x1 * y1) * (x1 * y1)), Defect(x1, y1);
    var w2, e2 := D * ((x2 * y2) * (x2 * y2)), Defect(x2, y2);
    ClearedRemainder(x1, y1, x2, y2, s1, s2, w1, w2);
    DefectForm(x1, y1);
    DefectForm(x2, y2);
    Remainder(w1, e1, w2, e2);
    var c1 := (1 + w1 * w2) * (1 + w2 + e2) - w2 * (2 * (1 + w1) + e1);
    var c2 := (1 + w1 * w2) * (1 + w1) - w1 * (2 * (1 + w2) + e2);
    ZeroTimes(e1, c1);
    ZeroTimes(e2, c2);
    ZeroSum(e1 * c1, e2 * c2);
  }

  // ---------------------------------------------------------------- the sum, characterised

  /** c is the sum of p and q: the two rational functions with denominators cleared. */
  ghost predicate IsSum(p: Point, q: Point, c: Point) {
    && Eq(c.x * (1 + Cross(p, q)), NumX(p, q))
    && Eq(c.y * (1 - Cross(p, q)), NumY(p, q))
  }

  lemma Quotient(n: int, u: int)
    requires Fermat() && !Zero(u)
    ensures Eq((n * Inv(u) % P) * u, n)
  {
    var q := n * Inv(u);
    InverseLaw(u);
    CongMod(q, P);
    CongRefl(u, P);
    CongMul(q % P, q, u, u, P);
    CongRefl(n, P);
    CongMul(n, n, u * Inv(u), 1, P);
    assert q * u == n * (u * Inv(u));
    CongTrans((q % P) * u, q * u, n, P);
  }

  lemma AddIsSum(p: Point, q: Point)
    requires FieldFacts() && OnCurve(p) && OnCurve(q)
    ensures IsSum(p, q, Add(p, q))
  {
    DenominatorsNotZero(p, q);
    Quotient(NumX(p, q), 1 + Cross(p, q));
    Quotient(NumY(p, q), 1 - Cross(p, q));
  }

  lemma UniqueQuotient(a: int, b: int, u: int, n: int)
    requires Fermat() && !Zero(u) && 0 <= a < P && 0 <= b < P
    requires Eq(a * u, n) && Eq(b * u, n)
    ensures a == b
  {
    CongSym(b * u, n, P);
    CongTrans(a * u, n, b * u, P);
    assert a * u == u * a && b * u == u * b;
    Cancel(a, b, u);
    CongSmall(a, b, P);
  }

  lemma SumUnique(p: Point, q: Point, c: Point)
    requires FieldFacts() && OnCurve(p) && OnCurve(q) && IsSum(p, q, c)
    requires 0 <= c.x < P && 0 <= c.y < P
    ensures c == Add(p, q)
  {
    AddIsSum(p, q);
    DenominatorsNotZero(p, q);
    var s := Add(p, q);
    UniqueQuotient(c.x, s.x, 1 + Cross(p, q), NumX(p, q));
    UniqueQuotient(c.y, s.y, 1 - Cross(p, q), NumY(p, q));
  }

  // ---------------------------------------------------------------- the group

  lemma ClearedScale(x: int, y: int, u: int, v: int)
    ensures ((u * u) * (v * v)) * Defect(x, y)
         == ((x * u) * (x * u)) * (v * v) + ((y * v) * (y * v)) * (u * u) - (u * u) * (v * v)
            - D * (((x * u) * (x * u)) * ((y * v) * (y * v)))
  {
    SquareOfProduct(x, u);
    SquareOfProduct(y, v);
    ScaleCore(x * x, y * y, u * u, v * v);
  }

  lemma ScaleCore(a: int, b: int, c: int, d: int)
    ensures (c * d) * (a + b - 1 - D * a * b) == (a * c) * d + (b * d) * c - c * d - D * ((a * c) * (b * d))
  {
  }

  lemma ClearedCong(n: int, m: int, x: int, y: int, t: int)
    requires Eq(x, n) && Eq(y, m)
    ensures Eq(ClearedDefect(x, y, t), ClearedDefect(n, m, t))
  {
    var u, v := (1 + t) * (1 + t), (1 - t) * (1 - t);
    CongRefl(u, P);
    CongRefl(v, P);
    CongRefl(u * v, P);
    CongRefl(D, P);
    CongMul(x, n, x, n, P);
    CongMul(y, m, y, m, P);
    CongMul(x * x, n * n, v, v, P);
    CongMul(y * y, m * m, u, u, P);
    CongMul(x * x, n * n, y * y, m * m, P);
    CongMul(D, D, (x * x) * (y * y), (n * n) * (m * m), P);
    CongAdd((x * x) * v, (n * n) * v, (y * y) * u, (m * m) * u, P);
    CongAdd((x * x) * v + (y * y) * u, (n * n) * v + (m * m) * u, u * v, u * v, P);
    CongAdd((x * x) * v + (y * y) * u - u * v, (n * n) * v + (m * m) * u - u * v,
            D * ((x * x) * (y * y)), D * ((n * n) * (m * m)), P);
  }

  /** The sum of two curve points is a curve point. */
  lemma AddOnCurve(p: Point, q: Point)
    requires FieldFacts() && OnCurve(p) && OnCurve(q)
    ensures OnCurve(Add(p, q))
  {
    CurvePoint(p);
    CurvePoint(q);
    var t, c := Cross(p, q), Add(p, q);
    var u, v := 1 + t, 1 - t;
    CongMod(NumX(p, q) * Inv(u), P);
    CongMod(NumY(p, q) * Inv(v), P);
    AddIsSum(p, q);
    ClosureZero(p.x, p.y, q.x, q.y);
    CrossRegroup(p.x, p.y, q.x, q.y);
    ClearedCong(NumX(p, q), NumY(p, q), c.x * u, c.y * v, t);
    CongTrans(ClearedDefect(c.x * u, c.y * v, t), ClearedDefect(NumX(p, q), NumY(p, q), t), 0, P);
    ClearedScale(c.x, c.y, u, v);
    DenominatorsNotZero(p, q);
    ProductNotZero(u, u);
    ProductNotZero(v, v);
    ProductNotZero(u * u, v * v);
    NoZeroDivisors((u * u) * (v * v), Defect(c.x, c.y));
  }

  lemma AddCommutes(p: Point, q: Point)
    ensures Add(p, q) == Add(q, p)
  {
    assert NumX(p, q) == NumX(q, p) && NumY(p, q) == NumY(q, p) && Cross(p, q) == Cross(q, p);
  }

  lemma IdentityOnCurve()
    ensures OnCurve(Identity)
  {
    CongRefl(0, P);
  }

  lemma IdentityTerms(x: int, y: int)
    ensures D * (x * 0) * (y * 1) == 0 && x * 1 + y * 0 == x && y * 1 - x * 0 == y
  {
  }

  lemma AddIdentity(p: Point)
    requires FieldFacts() && OnCurve(p)
    ensures Add(p, Identity) == p && Add(Identity, p) == p
  {
    CurvePoint(p);
    IdentityOnCurve();
    IdentityTerms(p.x, p.y);
    CongRefl(p.x, P);
    CongRefl(p.y, P);
    assert IsSum(p, Identity, p);
    SumUnique(p, Identity, p);
    AddCommutes(p, Identity);
  }

  lemma NegOnCurve(p: Point)
    requires OnCurve(p)
    ensures OnCurve(Neg(p)) && Eq(Neg(p).x, -p.x)
  {
    CurvePoint(p);
    var x := (-p.x) % P;
    CongMod(-p.x, P);
    CongMul(x, -p.x, x, -p.x, P);
    var a, b, y2 := x * x, p.x * p.x, p.y * p.y;
    assert -p.x * -p.x == b;
    CongRefl(D, P);
    CongRefl(y2, P);
    CongRefl(y2 - 1, P);
    CongMul(D, D, a, b, P);
    CongMul(D * a, D * b, y2, y2, P);
    CongAdd(a, b, y2 - 1, y2 - 1, P);
    CongAdd(a + (y2 - 1), b + (y2 - 1), D * a * y2, D * b * y2, P);
    CongTrans(Defect(x, p.y), Defect(p.x, p.y), 0, P);
  }

  /** The numerator of x vanishes for opposite points. */
  lemma OppositeX(x: int, y: int, z: int)
    requires Eq(z, -x)
    ensures Eq(0, x * y + y * z)
  {
    CongRefl(y, P);
    CongMul(y, y, z, -x, P);
    CongRefl(x * y, P);
    CongAdd(x * y, x * y, y * z, y * -x, P);
    assert x * y + y * -x == 0;
    CongSym(x * y + y * z, 0, P);
  }

  /** The numerator of y is its denominator for opposite points. */
  lemma OppositeY(x: int, y: int, z: int)
    requires Eq(z, -x) && Zero(Defect(x, y))
    ensures Eq(1 - D * (x * z) * (y * y), y * y - x * z)
  {
    CongRefl(x, P);
    CongMul(x, x, z, -x, P);
    OppositeCore(y * y, x * z, x * -x, Defect(x, y)) by { InverseCore(x, y); }
  }

  lemma OppositeCore(s: int, w: int, v: int, defect: int)
    requires Eq(w, v) && Zero(defect) && 1 - D * v * s == (s - v) - defect
    ensures Eq(1 - D * w * s, s - w)
  {
    CongRefl(D, P);
    CongRefl(s, P);
    CongRefl(1, P);
    CongMul(D, D, w, v, P);
    CongMul(D * w, D * v, s, s, P);
    CongAdd(1, 1, D * w * s, D * v * s, P);
    CongAdd(s, s, w, v, P);
    CongSym(s - w, s - v, P);
    EqSub(1 - D * v * s, s - v);
    ZeroTimes(defect, -1);
    CongTrans(1 - D * w * s, 1 - D * v * s, s - v, P);
    CongTrans(1 - D * w * s, s - v, s - w, P);
  }

  /** p + (-p) is the identity, by the curve equation. */
  lemma AddInverse(p: Point)
    requires FieldFacts() && OnCurve(p)
    ensures Add(p, Neg(p)) == Identity && Add(Neg(p), p) == Identity
  {
    CurvePoint(p);
    var q := Neg(p);
    NegOnCurve(p);
    OppositeX(p.x, p.y, q.x);
    OppositeY(p.x, p.y, q.x);
    assert IsSum(p, q, Identity);
    SumUnique(p, q, Identity);
    AddCommutes(p, q);
  }

  lemma InverseCore(x: int, y: int)
    ensures 1 - D * (x * -x) * (y * y) == (y * y - x * -x) - Defect(x, y)
  {
  }
}
