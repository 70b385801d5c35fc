/** The integers modulo P as a field. That P is prime enters only through Fermat's little
    theorem, stated as a hypothesis; inverses and the absence of zero divisors follow. */
module Field {
  import opened Congruence
  import opened Radix
  import opened Prime448

  ghost predicate Eq(a: int, b: int) {
    Cong(a, b, P)
  }

  ghost predicate Zero(a: int) {
    Eq(a, 0)
  }

  ghost predicate FermatAt(a: int) {
    !Zero(a) ==> Eq(Pow(a, P - 1), 1)
  }

  /** Hypothesis: a^(P-1) = 1 for every a that is not a multiple of P. */
  ghost predicate Fermat() {
    forall a: int :: FermatAt(a)
  }

  lemma EqSub(a: int, b: int)
    ensures Eq(a, b) <==> Zero(a - b)
  {
    if Eq(a, b) {
      var k := CongElim(a, b, P);
      CongIntro(a - b, 0, P, k);
    }
    if Zero(a - b) {
      var k := CongElim(a - b, 0, P);
      CongIntro(a, b, P, k);
    }
  }

  lemma ZeroTimes(a: int, c: int)
    requires Zero(a)
    ensures Zero(c * a) && Zero(a * c)
  {
    CongRefl(c, P);
    CongMul(c, c, a, 0, P);
    CongMul(a, 0, c, c, P);
  }

  lemma ZeroSum(a: int, b: int)
    requires Zero(a) && Zero(b)
    ensures Zero(a + b) && Zero(a - b)
  {
    CongAdd(a, 0, b, 0, P);
  }

  lemma OneNotZero()
    ensures !Zero(1) && !Zero(2)
  {
    if Zero(1) {
      CongSmall(1, 0, P);
    }
    if Zero(2) {
      CongSmall(2, 0, P);
    }
  }

  /** a^(P-2) */
  function Inv(a: int): int {
    Pow(a, P - 2)
  }

  lemma InverseLaw(a: int)
    requires Fermat() && !Zero(a)
    ensures Eq(a * Inv(a), 1)
  {
    assert FermatAt(a);
    assert Pow(a, P - 1) == a * Pow(a, P - 2);
  }

  lemma PowOfZero(a: int, n: nat)
    requires Zero(a) && n > 0
    ensures Zero(Pow(a, n))
  {
    ZeroTimes(a, Pow(a, n - 1));
  }

  lemma NoZeroDivisors(a: int, b: int)
    requires Fermat() && Zero(a * b)
    ensures Zero(a) || Zero(b)
  {
    if !Zero(a) {
      InverseLaw(a);
      ZeroTimes(a * b, Inv(a));
      CongRefl(b, P);
      CongMul(a * Inv(a), 1, b, b, P);
      assert (a * Inv(a)) * b == Inv(a) * (a * b);
      CongSym((a * Inv(a)) * b, b, P);
      CongTrans(b, (a * Inv(a)) * b, 0, P);
    }
  }

  lemma ProductNotZero(a: int, b: int)
    requires Fermat() && !Zero(a) && !Zero(b)
    ensures !Zero(a * b)
  {
    if Zero(a * b) {
      NoZeroDivisors(a, b);
    }
  }

  lemma Cancel(a: int, b: int, c: int)
    requires Fermat() && !Zero(c) && Eq(c * a, c * b)
    ensures Eq(a, b)
  {
    EqSub(c * a, c * b);
    assert c * a - c * b == c * (a - b);
    NoZeroDivisors(c, a - b);
    EqSub(a, b);
  }

  lemma {:induction false} PowCong(a: int, b: int, n: nat)
    requires Eq(a, b)
    ensures Eq(Pow(a, n), Pow(b, n))
  {
    if n == 0 {
      CongRefl(1, P);
    } else {
      PowCong(a, b, n - 1);
      CongMul(a, b, Pow(a, n - 1), Pow(b, n - 1), P);
    }
  }

  lemma {:induction false} PowProduct(a: int, b: int, n: nat)
    ensures Pow(a * b, n) == Pow(a, n) * Pow(b, n)
  {
    if n > 0 {
      PowProduct(a, b, n - 1);
      Interchange(a, b, Pow(a, n - 1), Pow(b, n - 1));
    }
  }

  lemma Interchange(a: int, b: int, c: int, d: int)
    ensures (a * b) * (c * d) == (a * c) * (b * d)
  {
  }

  /** A product of congruent factors. */
  lemma EqProduct(r: int, a: int, b: int, c: int, d: int)
    requires Eq(r, a * b) && Eq(a, c) && Eq(b, d)
    ensures Eq(r, c * d)
  {
    CongMul(a, c, b, d, P);
    CongTrans(r, a * b, c * d, P);
  }

  lemma EqSquare(r: int, a: int, c: int)
    requires Eq(r, a * a) && Eq(a, c)
    ensures Eq(r, c * c)
  {
    EqProduct(r, a, a, c, c);
  }

  lemma InverseOfZero(a: int)
    requires Zero(a)
    ensures Zero(Inv(a))
  {
    PowOfZero(a, P - 2);
  }

  // ---------------------------------------------------------------- square roots

  /** u^5 v^3 */
  function Radicand(u: int, v: int): int {
    (u * u * u) * (u * u) * (v * v * v)
  }

  /** u^3 v (u^5 v^3)^((P-3)/4), the root RFC 8032 proposes for u / v. */
  function RootCandidate(u: int, v: int): int {
    Pow(Radicand(u, v), (P - 3) / 4) * (u * u * u) * v
  }

  lemma RootIdentity(u: int, v: int, w: int)
    ensures (w * (u * u * u) * v) * (w * (u * u * u) * v) * v == u * (Radicand(u, v) * (w * w))
  {
  }

  /** v x^2 = u (u^5 v^3)^((P-1)/2) for the proposed root x. */
  lemma RootSquared(u: int, v: int)
    ensures RootCandidate(u, v) * RootCandidate(u, v) * v == u * Pow(Radicand(u, v), (P - 1) / 2)
  {
    var e := (P - 3) / 4;
    var w := Pow(Radicand(u, v), e);
    RootIdentity(u, v, w);
    PowAdd(Radicand(u, v), e, e);
    PrimeShape();
    assert (P - 1) / 2 == 1 + 2 * e;
    assert Pow(Radicand(u, v), 1 + 2 * e) == Radicand(u, v) * Pow(Radicand(u, v), 2 * e);
  }

  /** u^5 v^3 = (u^2 v^2 s)^2 when v s^2 = u. */
  lemma RadicandIsSquare(u: int, v: int, s: int)
    requires Eq(v * s * s, u)
    ensures Eq(Radicand(u, v), (u * u * v * v * s) * (u * u * v * v * s))
  {
    var c := (u * u) * (u * u) * (v * v * v);
    CongRefl(c, P);
    CongMul(c, c, v * s * s, u, P);
    CongSym(c * (v * s * s), c * u, P);
    assert c * u == Radicand(u, v) by {
      Regroup5(u, v);
    }
    assert c * (v * s * s) == (u * u * v * v * s) * (u * u * v * v * s) by {
      Regroup6(u * u, v, s);
    }
  }

  lemma Regroup5(u: int, v: int)
    ensures ((u * u) * (u * u) * (v * v * v)) * u == (u * u * u) * (u * u) * (v * v * v)
  {
  }

  lemma Regroup6(a: int, v: int, s: int)
    ensures (a * a * (v * v * v)) * (v * s * s) == (a * v * v * s) * (a * v * v * s)
  {
  }

  lemma PowerOfSquare(w: int, q: int, n: nat)
    requires Eq(w, q * q)
    ensures Eq(Pow(w, n), Pow(q, n + n))
  {
    PowCong(w, q * q, n);
    PowProduct(q, q, n);
    PowAdd(q, n, n);
  }

  /** Hypothesis-driven Euler criterion, the half that is needed: a non-zero square to the
      power (P-1)/2 is 1. */
  lemma SquareToHalf(w: int, q: int)
    requires Fermat() && Eq(w, q * q) && !Zero(q)
    ensures Eq(Pow(w, (P - 1) / 2), 1)
  {
    var n := (P - 1) / 2;
    PrimeShape();
    assert n + n == P - 1;
    PowerOfSquare(w, q, n);
    assert FermatAt(q);
    CongTrans(Pow(w, n), Pow(q, P - 1), 1, P);
  }

  ghost predicate IsRoot(s: int, u: int, v: int) {
    Eq(v * s * s, u)
  }

  lemma RootWhenSquare(u: int, v: int, s: int)
    requires Fermat() && !Zero(v) && IsRoot(s, u, v)
    ensures Eq(u * Pow(Radicand(u, v), (P - 1) / 2), u)
  {
    var n := (P - 1) / 2;
    CongRefl(u, P);
    if Zero(u) {
      ZeroTimes(u, Pow(Radicand(u, v), n));
      CongSym(u, 0, P);
      CongTrans(u * Pow(Radicand(u, v), n), 0, u, P);
    } else {
      RadicandIsSquare(u, v, s);
      var q := u * u * v * v * s;
      if Zero(q) {
        ZeroRoot(u, v, s);
      }
      SquareToHalf(Radicand(u, v), q);
      CongMul(u, u, Pow(Radicand(u, v), n), 1, P);
    }
  }

  lemma ZeroRoot(u: int, v: int, s: int)
    requires Fermat() && !Zero(u) && !Zero(v) && IsRoot(s, u, v)
    ensures !Zero(u * u * v * v * s)
  {
    if Zero(s) {
      ZeroTimes(s, v * s);
      CongSym(v * s * s, u, P);
      CongTrans(u, v * s * s, 0, P);
    }
    ProductNotZero(u, u);
    ProductNotZero(u * u, v);
    ProductNotZero(u * u * v, v);
    ProductNotZero(u * u * v * v, s);
  }

  /** The proposed root is a root exactly when u / v has one. */
  lemma RootCandidateDecides(u: int, v: int)
    requires Fermat() && !Zero(v)
    ensures Eq(RootCandidate(u, v) * RootCandidate(u, v) * v, u) <==> exists s: int :: IsRoot(s, u, v)
  {
    RootSquared(u, v);
    var c := RootCandidate(u, v);
    if Eq(c * c * v, u) {
      assert c * c * v == v * c * c;
      assert IsRoot(c, u, v);
    }
    if s: int :| IsRoot(s, u, v) {
      RootWhenSquare(u, v, s);
    }
  }
}
