/** Multiples of a curve point, and the reference double-and-add that defines them in the test
    model. Associativity of the addition law is a hypothesis; everything else is derived. */
module Group {
  import opened Arith
  import opened Radix
  import opened Curve

  ghost predicate AssociativeAt(p: Point, q: Point, r: Point) {
    OnCurve(p) && OnCurve(q) && OnCurve(r) ==> Add(Add(p, q), r) == Add(p, Add(q, r))
  }

  /** Hypothesis: the addition law on the curve is associative. */
  ghost predicate Associative() {
    forall p: Point, q: Point, r: Point :: AssociativeAt(p, q, r)
  }

  ghost predicate GroupFacts() {
    FieldFacts() && Associative()
  }

  /** n p, for any integer n */
  function SMul(n: int, p: Point): Point
    decreases if n < 0 then 1 - n else n
  {
    if n == 0 then Identity
    else if n > 0 then Add(SMul(n - 1, p), p)
    else Neg(SMul(-n, p))
  }

  lemma {:induction false} SMulOnCurve(n: int, p: Point)
    requires FieldFacts() && OnCurve(p)
    ensures OnCurve(SMul(n, p))
    decreases if n < 0 then 1 - n else n
  {
    if n == 0 {
      IdentityOnCurve();
    } else if n > 0 {
      SMulOnCurve(n - 1, p);
      AddOnCurve(SMul(n - 1, p), p);
    } else {
      SMulOnCurve(-n, p);
      NegOnCurve(SMul(-n, p));
    }
  }

  lemma InverseUnique(a: Point, b: Point)
    requires GroupFacts() && OnCurve(a) && OnCurve(b) && Add(a, b) == Identity
    ensures b == Neg(a)
  {
    NegOnCurve(a);
    AddInverse(a);
    AddIdentity(b);
    AddIdentity(Neg(a));
    assert AssociativeAt(Neg(a), a, b);
  }

  lemma NegAdd(a: Point, b: Point)
    requires GroupFacts() && OnCurve(a) && OnCurve(b)
    ensures Neg(Add(a, b)) == Add(Neg(b), Neg(a))
  {
    var na, nb := Neg(a), Neg(b);
    NegOnCurve(a);
    NegOnCurve(b);
    AddOnCurve(a, b);
    AddOnCurve(nb, na);
    AddInverse(a);
    AddInverse(b);
    AddIdentity(na);
    assert AssociativeAt(b, nb, na);
    assert AssociativeAt(a, b, Add(nb, na));
    InverseUnique(Add(a, b), Add(nb, na));
  }

  lemma NegIdentity()
    requires FieldFacts()
    ensures Neg(Identity) == Identity
  {
  }

  lemma SMulSucc(n: int, p: Point)
    requires GroupFacts() && OnCurve(p)
    ensures SMul(n + 1, p) == Add(SMul(n, p), p)
  {
    if n < 0 {
      var k := -n;
      var a := SMul(k - 1, p);
      SMulOnCurve(k - 1, p);
      NegOnCurve(p);
      NegOnCurve(a);
      NegAdd(a, p);
      AddCommutes(Neg(p), Neg(a));
      AddInverse(p);
      AddIdentity(Neg(a));
      assert AssociativeAt(Neg(a), Neg(p), p);
      assert SMul(n, p) == Neg(SMul(k, p)) && SMul(k, p) == Add(a, p);
      NegIdentity();
    }
  }

  lemma {:induction false} SMulAdd(m: int, n: int, p: Point)
    requires GroupFacts() && OnCurve(p)
    ensures SMul(m + n, p) == Add(SMul(m, p), SMul(n, p))
    decreases if n < 0 then -n else n
  {
    SMulOnCurve(m, p);
    SMulOnCurve(n, p);
    if n == 0 {
      AddIdentity(SMul(m, p));
    } else if n > 0 {
      SMulAdd(m, n - 1, p);
      SMulSucc(m + n - 1, p);
      SMulSucc(n - 1, p);
      SMulOnCurve(n - 1, p);
      assert AssociativeAt(SMul(m, p), SMul(n - 1, p), p);
    } else {
      SMulAdd(m, n + 1, p);
      SMulSucc(m + n, p);
      SMulSucc(n, p);
      SMulOnCurve(m + n, p);
      AddOnCurve(SMul(m, p), SMul(n, p));
      assert AssociativeAt(SMul(m, p), SMul(n, p), p);
      CancelRight(SMul(m + n, p), Add(SMul(m, p), SMul(n, p)), p);
    }
  }

  lemma CancelRight(a: Point, b: Point, p: Point)
    requires GroupFacts() && OnCurve(a) && OnCurve(b) && OnCurve(p) && Add(a, p) == Add(b, p)
    ensures a == b
  {
    NegOnCurve(p);
    AddInverse(p);
    AddIdentity(a);
    AddIdentity(b);
    assert AssociativeAt(a, p, Neg(p));
    assert AssociativeAt(b, p, Neg(p));
  }

  lemma SMulNeg(n: int, p: Point)
    requires GroupFacts() && OnCurve(p)
    ensures SMul(-n, p) == Neg(SMul(n, p))
  {
    SMulOnCurve(n, p);
    SMulOnCurve(-n, p);
    SMulAdd(n, -n, p);
    InverseUnique(SMul(n, p), SMul(-n, p));
  }

  lemma {:induction false} SMulMul(m: int, n: int, p: Point)
    requires GroupFacts() && OnCurve(p)
    ensures SMul(m * n, p) == SMul(m, SMul(n, p))
    decreases if m < 0 then -m else m
  {
    var q := SMul(n, p);
    SMulOnCurve(n, p);
    if m > 0 {
      SMulMul(m - 1, n, p);
      SMulAdd((m - 1) * n, n, p);
      OneMore(m - 1, n);
      SMulSucc(m - 1, q);
    } else if m < 0 {
      SMulMul(m + 1, n, p);
      SMulAdd(m * n, n, p);
      OneMore(m, n);
      SMulSucc(m, q);
      SMulOnCurve(m * n, p);
      SMulOnCurve(m, q);
      CancelRight(SMul(m * n, p), SMul(m, q), q);
    }
  }

  lemma DoubleIsTwice(p: Point)
    requires FieldFacts() && OnCurve(p)
    ensures SMul(1, p) == p && SMul(2, p) == Add(p, p)
  {
    AddIdentity(p);
    assert SMul(0, p) == Identity;
    assert SMul(1, p) == Add(SMul(0, p), p);
    assert SMul(2, p) == Add(SMul(1, p), p);
  }

  lemma HalfSteps(k: nat, i: nat)
    ensures k / PowNat(2, i) == 2 * (k / PowNat(2, i + 1)) + k / PowNat(2, i) % 2
  {
    DivTwice(k, PowNat(2, i));
  }

  function PowNat(b: nat, n: nat): (p: nat)
    requires b > 0
    ensures p > 0
  {
    PowPositive(b, n);
    Pow(b, n)
  }

  /** The reference model: double for every bit, add for every set bit. */
  method DoubleAndAdd(k: nat, p: Point, bits: nat) returns (acc: Point)
    requires GroupFacts() && OnCurve(p) && k < PowNat(2, bits)
    ensures acc == SMul(k, p)
  {
    acc := Identity;
    var i := bits;
    QuotientUnique(k, PowNat(2, bits), 0, k);
    while i > 0
      invariant 0 <= i <= bits && acc == SMul(k / PowNat(2, i), p)
    {
      i := i - 1;
      var high := k / PowNat(2, i + 1);
      HalfSteps(k, i);
      SMulAdd(high, high, p);
      acc := Add(acc, acc);
      if k / PowNat(2, i) % 2 == 1 {
        SMulSucc(2 * high, p);
        acc := Add(acc, p);
      }
    }
    assert PowNat(2, 0) == 1;
  }
}
