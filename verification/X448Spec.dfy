/** X448 as section 5 of RFC 7748 states it: scalar pruning, the quotient of the ladder's last
    pair, and the points of small order. */
module X448Spec {
  import opened Congruence
  import opened Radix
  import opened Words
  import opened Prime448
  import opened Field
  import opened Ladder
  import opened Pruning
  import Ed448Spec

  /** The guard of `Modular`; see Curve.Unfold. */
  predicate Operands(a: int, b: int, p: int, q: int) {
    a == p && b == q
  }

  /** o is arithmetic on residues modulo P. */
  ghost predicate Modular(o: Ops) {
    forall a, b, p, q {:trigger Operands(a, b, p, q)} :: Operands(a, b, p, q) ==>
      o.add(a, b) == (p + q) % P && o.sub(a, b) == (p - q) % P && o.mul(a, b) == (p * q) % P
  }

  function Residues(): Ops {
    Ops((a, b) => (a + b) % P, (a, b) => (a - b) % P, (a, b) => (a * b) % P)
  }

  lemma ResiduesAreModular()
    ensures Modular(Residues())
  {
  }

  /** Clears the low two bits and sets the top bit. */
  function PrunedKey(s: Octets): (k: Octets)
    requires |s| == 56
    ensures |k| == 56
  {
    Ed448Spec.PruneBounds(s[0]);
    Ed448Spec.PruneBounds(s[55]);
    [Land(s[0], 252)] + s[1..55] + [Lor(s[55], 128)]
  }

  /** x_2 / z_2, or 0 when z_2 = 0. */
  function Quotient(s: Registers): int {
    s.x2 * Inv(s.z2) % P
  }

  /** X448 of the pruned scalar and the u-coordinate, as an integer. */
  function Result(o: Ops, bits: seq<int>, u: int): int {
    Quotient(Textbook(o, u, bits, 0))
  }

  // ---------------------------------------------------------------- points of small order

  /** The u-coordinates of the points of order 2 and 4, on the curve and on its twist. */
  ghost predicate SmallOrder(u: int) {
    Zero(u) || Zero(u - 1) || Zero(u + 1)
  }

  lemma SmallOrderIs(u: int)
    requires u % P == 0 || u % P == 1 || u % P == P - 1
    ensures SmallOrder(u)
  {
    var x := u % P;
    CongMod(u, P);
    CongSym(x, u, P);
    EqSub(u, x);
    if x == 1 {
      assert u - x == u - 1;
    } else if x == P - 1 {
      CongIntro(P, 0, P, 1);
      ZeroSum(u - x, P);
      assert u - x + P == u + 1;
    }
  }

  /** The multiples of (0, 0) are (0, 0) and the neutral element. */
  ghost predicate OrderTwo(n: nat, x: int, z: int) {
    Zero(x) || Zero(z)
  }

  /** The multiples of a point with u = 1 or u = -1 run through O, P, (0, 0), -P. */
  ghost predicate OrderFour(n: nat, x: int, z: int) {
    if n % 4 == 0 then Zero(z)
    else if n % 4 == 2 then Zero(x)
    else Zero(x - z) || Zero(x + z)
  }

  lemma Operations(o: Ops, a: int, b: int)
    requires Modular(o)
    ensures Eq(o.add(a, b), a + b) && Eq(o.sub(a, b), a - b) && Eq(o.mul(a, b), a * b)
  {
    assert Operands(a, b, a, b);
    CongMod(a + b, P);
    CongMod(a - b, P);
    CongMod(a * b, P);
  }

  lemma ZeroCarries(a: int, b: int)
    requires Eq(a, b) && Zero(b)
    ensures Zero(a)
  {
    CongTrans(a, b, 0, P);
  }

  lemma ZeroFactor(o: Ops, a: int, b: int)
    requires Modular(o) && (Zero(a) || Zero(b))
    ensures Zero(o.mul(a, b))
  {
    Operations(o, a, b);
    if Zero(a) {
      ZeroTimes(a, b);
    } else {
      ZeroTimes(b, a);
    }
    ZeroCarries(o.mul(a, b), a * b);
  }

  lemma SquareDifference(x: int, z: int)
    ensures (x + z) * (x + z) - (x - z) * (x - z) == 4 * (x * z)
  {
  }

  /** (x + z)^2 and (x - z)^2 are the same when x z = 0. */
  lemma SameSquares(o: Ops, x: int, z: int)
    requires Modular(o) && (Zero(x) || Zero(z))
    ensures Eq(o.mul(o.add(x, z), o.add(x, z)), o.mul(o.sub(x, z), o.sub(x, z)))
  {
    var a, b := o.add(x, z), o.sub(x, z);
    Operations(o, x, z);
    Operations(o, a, a);
    Operations(o, b, b);
    EqSquare(o.mul(a, a), a, x + z);
    EqSquare(o.mul(b, b), b, x - z);
    if Zero(x) {
      ZeroTimes(x, z);
    } else {
      ZeroTimes(z, x);
    }
    ZeroTimes(x * z, 4);
    SquareDifference(x, z);
    EqSub((x + z) * (x + z), (x - z) * (x - z));
    CongTrans(o.mul(a, a), (x + z) * (x + z), (x - z) * (x - z), P);
    CongSym(o.mul(b, b), (x - z) * (x - z), P);
    CongTrans(o.mul(a, a), (x - z) * (x - z), o.mul(b, b), P);
  }

  /** Doubling a pair with x z = 0 gives z = 0. */
  lemma DoubleDegenerate(o: Ops, x1: int, s: Registers)
    requires Modular(o) && (Zero(s.x2) || Zero(s.z2))
    ensures Zero(Step(o, x1, s).z2)
  {
    var a, b := o.add(s.x2, s.z2), o.sub(s.x2, s.z2);
    var aa, bb := o.mul(a, a), o.mul(b, b);
    var e := o.sub(aa, bb);
    SameSquares(o, s.x2, s.z2);
    Operations(o, aa, bb);
    EqSub(aa, bb);
    ZeroCarries(e, aa - bb);
    ZeroFactor(o, e, o.add(aa, o.mul(e, A24)));
  }

  lemma ZeroEnd(o: Ops, x: int, z: int)
    requires Modular(o)
    ensures Zero(x + z) ==> Zero(o.add(x, z))
    ensures Zero(x - z) ==> Zero(o.sub(x, z))
  {
    Operations(o, x, z);
    if Zero(x + z) {
      ZeroCarries(o.add(x, z), x + z);
    }
    if Zero(x - z) {
      ZeroCarries(o.sub(x, z), x - z);
    }
  }

  /** Doubling a pair with x = z or x = -z gives x = 0. */
  lemma DoubleOdd(o: Ops, x1: int, s: Registers)
    requires Modular(o) && (Zero(s.x2 - s.z2) || Zero(s.x2 + s.z2))
    ensures Zero(Step(o, x1, s).x2)
  {
    var a, b := o.add(s.x2, s.z2), o.sub(s.x2, s.z2);
    ZeroEnd(o, s.x2, s.z2);
    if Zero(a) {
      ZeroFactor(o, a, a);
    } else {
      ZeroFactor(o, b, b);
    }
    ZeroFactor(o, o.mul(a, a), o.mul(b, b));
  }

  /** x and u x are equal or opposite when u is 1 or -1. */
  lemma UnitMultiple(o: Ops, u: int, x: int, w: int)
    requires Modular(o) && Eq(x, w) && (Zero(u - 1) || Zero(u + 1))
    ensures Zero(x - o.mul(u, w)) || Zero(x + o.mul(u, w))
  {
    var y := o.mul(u, w);
    Operations(o, u, w);
    CongAdd(x, w, y, u * w, P);
    if Zero(u - 1) {
      ZeroTimes(u - 1, -w);
      assert (u - 1) * (-w) == w - u * w;
      ZeroCarries(x - y, w - u * w);
    } else {
      ZeroTimes(u + 1, w);
      assert (u + 1) * w == w + u * w;
      ZeroCarries(x + y, w + u * w);
    }
  }

  /** Adding a pair with x = z or x = -z to another gives such a pair again, when u is 1 or -1. */
  lemma AddOdd(o: Ops, u: int, s: Registers)
    requires Modular(o) && (Zero(u - 1) || Zero(u + 1))
    requires Zero(s.x2 - s.z2) || Zero(s.x2 + s.z2) || Zero(s.x3 - s.z3) || Zero(s.x3 + s.z3)
    ensures var r := Step(o, u, s); Zero(r.x3 - r.z3) || Zero(r.x3 + r.z3)
  {
    var a, b := o.add(s.x2, s.z2), o.sub(s.x2, s.z2);
    var c, d := o.add(s.x3, s.z3), o.sub(s.x3, s.z3);
    ZeroEnd(o, s.x2, s.z2);
    ZeroEnd(o, s.x3, s.z3);
    if Zero(d) || Zero(a) {
      ZeroFactor(o, d, a);
    } else {
      ZeroFactor(o, c, b);
    }
    var da, cb := o.mul(d, a), o.mul(c, b);
    SameSquares(o, da, cb);
    UnitMultiple(o, u, o.mul(o.add(da, cb), o.add(da, cb)), o.mul(o.sub(da, cb), o.sub(da, cb)));
  }

  lemma OrderTwoStep(o: Ops, u: int, n: nat, m: nat, s: Registers)
    requires Modular(o) && Zero(u)
    ensures DifferentialAt(OrderTwo, o, u, n, m, s)
  {
    if OrderTwo(n, s.x2, s.z2) {
      DoubleDegenerate(o, u, s);
      var c, d := o.add(s.x3, s.z3), o.sub(s.x3, s.z3);
      var da, cb := o.mul(d, o.add(s.x2, s.z2)), o.mul(c, o.sub(s.x2, s.z2));
      ZeroFactor(o, u, o.mul(o.sub(da, cb), o.sub(da, cb)));
    }
  }

  lemma OrderFourStep(o: Ops, u: int, n: nat, m: nat, s: Registers)
    requires Modular(o) && (Zero(u - 1) || Zero(u + 1))
    ensures DifferentialAt(OrderFour, o, u, n, m, s)
  {
    if (m == n + 1 || n == m + 1) && OrderFour(n, s.x2, s.z2) && OrderFour(m, s.x3, s.z3) {
      if n % 2 == 0 {
        DoubleDegenerate(o, u, s);
      } else {
        DoubleOdd(o, u, s);
      }
      AddOdd(o, u, s);
      Parities(n, m);
    }
  }

  lemma Parities(n: nat, m: nat)
    requires m == n + 1 || n == m + 1
    ensures (n + m) % 4 == 1 || (n + m) % 4 == 3
    ensures 2 * n % 4 == if n % 2 == 0 then 0 else 2
  {
  }

  /** The scalar is 2^447 plus the input with bits 0, 1 and 447 cleared: a multiple of 4 between
      2^447 and 2^448. */
  lemma KeyValue(scalar: Octets)
    requires |scalar| == 56
    ensures Val(256, PrunedKey(scalar)) == TWO_447 + 4 * (Val(256, scalar) / 4 % TWO_445)
    ensures TWO_447 <= Val(256, PrunedKey(scalar)) < 2 * TWO_447 && Val(256, PrunedKey(scalar)) % 4 == 0
  {
    PrunedValue(scalar, PrunedKey(scalar));
    ClampedRange(Val(256, PrunedKey(scalar)), Val(256, scalar) / 4);
  }

  /** The pair found for a multiple of 4 has z = 0 or x = 0, so the quotient is 0. */
  lemma QuotientOfZero(s: Registers)
    requires Zero(s.x2) || Zero(s.z2)
    ensures Quotient(s) == 0
  {
    if Zero(s.x2) {
      ZeroTimes(s.x2, Inv(s.z2));
    } else {
      InverseOfZero(s.z2);
      ZeroTimes(Inv(s.z2), s.x2);
    }
    CongIff(s.x2 * Inv(s.z2), 0, P);
  }

  lemma SmallOrderResult(o: Ops, bits: seq<int>, u: int, scalar: Octets)
    requires Modular(o) && SmallOrder(u)
    requires IsBits(bits) && |scalar| == 56 && Val(2, bits) == Val(256, PrunedKey(scalar))
    ensures Result(o, bits, u % P) == 0
  {
    var x1 := u % P;
    CongMod(u, P);
    ZeroMoves(x1, u);
    if Zero(u) {
      ZeroTimes(x1, 1);
      CongRefl(0, P);
      forall n: nat, m: nat, s: Registers ensures DifferentialAt(OrderTwo, o, x1, n, m, s) {
        OrderTwoStep(o, x1, n, m, s);
      }
      LadderInvariant(OrderTwo, o, x1, bits, 0);
    } else {
      CongRefl(0, P);
      forall n: nat, m: nat, s: Registers ensures DifferentialAt(OrderFour, o, x1, n, m, s) {
        OrderFourStep(o, x1, n, m, s);
      }
      KeyValue(scalar);
      LadderInvariant(OrderFour, o, x1, bits, 0);
    }
    assert bits[0..] == bits;
    QuotientOfZero(Textbook(o, x1, bits, 0));
  }

  lemma ZeroMoves(x: int, u: int)
    requires Eq(x, u)
    ensures Zero(u) ==> Zero(x)
    ensures Zero(u - 1) ==> Zero(x - 1)
    ensures Zero(u + 1) ==> Zero(x + 1)
  {
    CongRefl(1, P);
    CongAdd(x, u, 1, 1, P);
    if Zero(u) {
      ZeroCarries(x, u);
    }
    if Zero(u - 1) {
      ZeroCarries(x - 1, u - 1);
    }
    if Zero(u + 1) {
      ZeroCarries(x + 1, u + 1);
    }
  }
}
