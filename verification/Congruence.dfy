/** Congruence of integers modulo a positive modulus, with the quotient as an explicit
    witness, so that a congruence hands the verifier a linear equation and no `%`. */
module Congruence {
  import opened Arith

  predicate IsQuotient(a: int, b: int, m: int, k: int) {
    a == b + m * k
  }

  ghost predicate Cong(a: int, b: int, m: int) {
    exists k: int :: IsQuotient(a, b, m, k)
  }

  lemma CongIntro(a: int, b: int, m: int, k: int)
    requires a == b + m * k
    ensures Cong(a, b, m)
  {
    assert IsQuotient(a, b, m, k);
  }

  lemma CongElim(a: int, b: int, m: int) returns (k: int)
    requires Cong(a, b, m)
    ensures a == b + m * k
  {
    k :| IsQuotient(a, b, m, k);
  }

  lemma CongRefl(a: int, m: int)
    ensures Cong(a, a, m)
  {
    assert IsQuotient(a, a, m, 0);
  }

  lemma CongSym(a: int, b: int, m: int)
    requires Cong(a, b, m)
    ensures Cong(b, a, m)
  {
    var k := CongElim(a, b, m);
    assert m * (-k) == -(m * k);
    CongIntro(b, a, m, -k);
  }

  lemma CongTrans(a: int, b: int, c: int, m: int)
    requires Cong(a, b, m) && Cong(b, c, m)
    ensures Cong(a, c, m)
  {
    var k := CongElim(a, b, m);
    var l := CongElim(b, c, m);
    assert m * (k + l) == m * k + m * l;
    CongIntro(a, c, m, k + l);
  }

  lemma CongAdd(a: int, b: int, c: int, d: int, m: int)
    requires Cong(a, b, m) && Cong(c, d, m)
    ensures Cong(a + c, b + d, m) && Cong(a - c, b - d, m)
  {
    var k := CongElim(a, b, m);
    var l := CongElim(c, d, m);
    assert m * (k + l) == m * k + m * l;
    assert m * (k - l) == m * k - m * l;
    CongIntro(a + c, b + d, m, k + l);
    CongIntro(a - c, b - d, m, k - l);
  }

  lemma CongMul(a: int, b: int, c: int, d: int, m: int)
    requires Cong(a, b, m) && Cong(c, d, m)
    ensures Cong(a * c, b * d, m)
  {
    var k := CongElim(a, b, m);
    var l := CongElim(c, d, m);
    assert (b + m * k) * (d + m * l) == b * d + m * (b * l + k * d + k * (m * l));
    CongIntro(a * c, b * d, m, b * l + k * d + k * (m * l));
  }

  /** Two residues in [0, m) that are congruent are equal. */
  lemma CongSmall(a: int, b: int, m: int)
    requires 0 <= a < m && 0 <= b < m
    requires Cong(a, b, m)
    ensures a == b
  {
    var k := CongElim(a, b, m);
    if k >= 1 {
      Scale(k, m);
    } else if k <= -1 {
      Scale(-k, m);
    }
  }

  lemma CongMod(a: int, m: int)
    requires m > 0
    ensures 0 <= a % m < m && Cong(a % m, a, m)
  {
    assert a == m * (a / m) + a % m;
    assert m * (-(a / m)) == -(m * (a / m));
    CongIntro(a % m, a, m, -(a / m));
  }

  lemma CongIff(a: int, b: int, m: int)
    requires m > 0
    ensures Cong(a, b, m) <==> a % m == b % m
  {
    CongMod(a, m);
    CongMod(b, m);
    CongSym(b % m, b, m);
    if Cong(a, b, m) {
      CongTrans(a % m, a, b, m);
      CongTrans(a % m, b, b % m, m);
      CongSmall(a % m, b % m, m);
    }
    if a % m == b % m {
      CongSym(a % m, a, m);
      CongTrans(a, a % m, b, m);
    }
  }
}
