/** Field elements as values. Each operation runs the corresponding array kernel on buffers of
    its own, so that the layers above can hold elements in record fields and local variables. */
module FieldOps {
  import opened Congruence
  import opened Radix
  import opened Prime448
  import opened Fe448Kernels
  import opened Field
  import K = Fe448

  type Elt = s: seq<int> | Tight(s) witness seq(16, _ => 0)

  /** The integer an element stands for, unreduced. */
  function V(a: Elt): int {
    FeVal(a)
  }

  method Buffer(a: Elt) returns (r: array<int>)
    ensures fresh(r) && r[..] == a
  {
    r := new int[16](i requires 0 <= i < 16 => a[i]);
    assert r[..] == a;
  }

  method Mul(a: Elt, b: Elt) returns (r: Elt)
    ensures Eq(V(r), V(a) * V(b))
  {
    var x := Buffer(a);
    var y := Buffer(b);
    Fe448Kernels.Mul(x, x, y);
    r := x[..];
  }

  method Sq(a: Elt) returns (r: Elt)
    ensures Eq(V(r), V(a) * V(a))
  {
    var x := Buffer(a);
    Fe448Kernels.Sq(x, x);
    r := x[..];
  }

  method Add(a: Elt, b: Elt) returns (r: Elt)
    ensures Eq(V(r), V(a) + V(b))
  {
    var x := Buffer(a);
    var y := Buffer(b);
    Fe448Kernels.Add(x, x, y);
    r := x[..];
  }

  method Sub(a: Elt, b: Elt) returns (r: Elt)
    ensures Eq(V(r), V(a) - V(b))
  {
    var x := Buffer(a);
    var y := Buffer(b);
    Fe448Kernels.Sub(x, x, y);
    r := x[..];
  }

  method MulSmall(a: Elt, k: I63) returns (r: Elt)
    requires -SMALL <= k <= SMALL
    ensures Eq(V(r), V(a) * k)
  {
    var x := Buffer(a);
    Fe448Kernels.MulSmall(x, x, k);
    r := x[..];
  }

  method Neg(a: Elt) returns (r: Elt)
    ensures V(r) == -V(a)
  {
    var x := Buffer(a);
    K.Neg(x, x);
    r := x[..];
  }

  /** b if bit = 1, a if bit = 0. */
  method Cmov(a: Elt, b: Elt, bit: int) returns (r: Elt)
    requires bit == 0 || bit == 1
    ensures r == if bit == 0 then a else b
  {
    var x := Buffer(a);
    var y := Buffer(b);
    K.Select(x, x, y, bit);
    r := x[..];
  }

  method Cswap(a: Elt, b: Elt, bit: int) returns (x: Elt, y: Elt)
    requires bit == 0 || bit == 1
    ensures x == if bit == 0 then a else b
    ensures y == if bit == 0 then b else a
  {
    var u := Buffer(a);
    var v := Buffer(b);
    K.Cswap(u, v, bit);
    x, y := u[..], v[..];
  }

  method Small(n: int) returns (r: Elt)
    requires 0 <= n <= 1
    ensures V(r) == n
  {
    var zeros := seq(16, _ => 0);
    r := zeros[0 := n];
    ValZero(R, zeros);
    ValUpdate(R, zeros, 0, n);
  }

  method OfBytes(s: Octets, off: nat) returns (r: Elt)
    requires off + 56 <= |s|
    ensures Eq(V(r), Val(256, s[off..off + 56]))
  {
    var x := new int[16];
    K.OfBytes(x, s, off);
    r := x[..];
  }

  method ToBytes(a: Elt) returns (s: Octets)
    ensures s == ToDigits(256, V(a) % P, 56)
  {
    var x := Buffer(a);
    s := K.Canonical(x);
  }

  method Equal(a: Elt, b: Elt) returns (r: int)
    ensures r == if Eq(V(a), V(b)) then 1 else 0
  {
    var x := Buffer(a);
    var y := Buffer(b);
    r := K.Equal(x, y);
  }

  method IsZero(a: Elt) returns (r: int)
    ensures r == if Zero(V(a)) then 1 else 0
  {
    var x := Buffer(a);
    r := K.IsZero(x);
  }

  method IsNegative(a: Elt) returns (r: int)
    ensures r == V(a) % P % 2
  {
    var x := Buffer(a);
    r := K.IsNegative(x);
  }

  // ---------------------------------------------------------------- exponentiation

  /** z^(2^k), by k squarings */
  function Squared(z: int, k: nat): int {
    if k == 0 then z else Squared(z, k - 1) * Squared(z, k - 1)
  }

  /** z^(2^k - 1) */
  function Tower(z: int, k: nat): int {
    if k == 0 then 1 else Tower(z, k - 1) * Tower(z, k - 1) * z
  }

  /** t_(j+k) = t_j^(2^k) t_k, the step every link of the addition chain uses. */
  lemma {:induction false} TowerAdd(z: int, j: nat, k: nat)
    ensures Tower(z, j + k) == Squared(Tower(z, j), k) * Tower(z, k)
  {
    if k > 0 {
      TowerAdd(z, j, k - 1);
      var s, t := Squared(Tower(z, j), k - 1), Tower(z, k - 1);
      Interchange(s, t, s, t);
      assert ((s * s) * (t * t)) * z == (s * s) * (t * t * z);
    }
  }

  lemma {:induction false} SquaredIsPow(z: int, k: nat)
    ensures Pow(2, k) >= 1 && Squared(z, k) == Pow(z, Pow(2, k))
  {
    if k == 0 {
      assert Pow(z, 1) == z;
    } else {
      SquaredIsPow(z, k - 1);
      PowAdd(z, Pow(2, k - 1), Pow(2, k - 1));
    }
  }

  lemma {:induction false} TowerIsPow(z: int, k: nat)
    ensures Pow(2, k) >= 1 && Tower(z, k) == Pow(z, Pow(2, k) - 1)
  {
    if k > 0 {
      TowerIsPow(z, k - 1);
      var e := Pow(2, k - 1) - 1;
      PowAdd(z, e, e);
      assert Pow(z, 2 * e + 1) == z * Pow(z, 2 * e);
    }
  }

  lemma ChainExponent(z: int, k: nat)
    ensures Pow(2, k) >= 1
    ensures Squared(Tower(z, k + 1), k + 1) * Tower(z, k)
         == Pow(z, (2 * Pow(2, k) - 1) * (2 * Pow(2, k)) + (Pow(2, k) - 1))
  {
    TowerIsPow(z, k);
    TowerIsPow(z, k + 1);
    SquaredIsPow(Tower(z, k + 1), k + 1);
    PowMul(z, Pow(2, k + 1) - 1, Pow(2, k + 1));
    PowAdd(z, (Pow(2, k + 1) - 1) * Pow(2, k + 1), Pow(2, k) - 1);
  }

  lemma ExponentP34(w: int)
    requires w == Pow(2, 222)
    ensures (2 * w - 1) * (2 * w) + (w - 1) == (P - 3) / 4
  {
    PrimeValue();
    PowMul(2, 28, 8);
    PowMul(2, 7, 4);
    assert Pow(2, 7) == 128;
    assert Pow(128, 4) == R;
    RadixPowers();
    PowAdd(2, 2, 222);
    assert Pow(2, 2) == 4;
    assert w == PHI / 4;
  }

  /** The whole chain raises to (P - 3) / 4 = 2^446 - 2^222 - 1. */
  lemma ChainIsP34(z: int)
    ensures Squared(Tower(z, 223), 223) * Tower(z, 222) == Pow(z, (P - 3) / 4)
  {
    ChainExponent(z, 222);
    ExponentP34(Pow(2, 222));
  }

  lemma {:induction false} SquaredCong(a: int, b: int, k: nat)
    requires Eq(a, b)
    ensures Eq(Squared(a, k), Squared(b, k))
  {
    if k > 0 {
      SquaredCong(a, b, k - 1);
      CongMul(Squared(a, k - 1), Squared(b, k - 1), Squared(a, k - 1), Squared(b, k - 1), P);
    }
  }

  /** a^(2^n): one squaring, then n - 1 more in place. */
  method SqN(a: Elt, n: nat) returns (r: Elt)
    requires n >= 1
    ensures Eq(V(r), Squared(V(a), n))
  {
    r := Sq(a);
    assert Squared(V(a), 1) == V(a) * V(a);
    for i := 1 to n
      invariant Eq(V(r), Squared(V(a), i))
    {
      var s := Sq(r);
      var w := Squared(V(a), i);
      CongMul(V(r), w, V(r), w, P);
      CongTrans(V(s), V(r) * V(r), w * w, P);
      r := s;
    }
  }

  /** t_j^(2^k) t_k */
  method Join(ghost z: int, a: Elt, b: Elt, ghost j: nat, k: nat) returns (r: Elt)
    requires k >= 1 && Eq(V(a), Tower(z, j)) && Eq(V(b), Tower(z, k))
    ensures Eq(V(r), Tower(z, j + k))
  {
    var s := SqN(a, k);
    SquaredCong(V(a), Tower(z, j), k);
    CongTrans(V(s), Squared(V(a), k), Squared(Tower(z, j), k), P);
    r := Mul(s, b);
    CongMul(V(s), Squared(Tower(z, j), k), V(b), Tower(z, k), P);
    TowerAdd(z, j, k);
    CongTrans(V(r), V(s) * V(b), Tower(z, j + k), P);
  }

  /** z^((P-3)/4), by the chain t_2, t_3, t_6, ..., t_222, t_223. */
  method PowP34(z: Elt) returns (r: Elt)
    ensures Eq(V(r), Pow(V(z), (P - 3) / 4))
  {
    ghost var x := V(z);
    assert Tower(x, 1) == x;
    CongRefl(x, P);
    var t2 := Join(x, z, z, 1, 1);
    var t3 := Join(x, t2, z, 2, 1);
    var t6 := Join(x, t3, t3, 3, 3);
    var t12 := Join(x, t6, t6, 6, 6);
    var t24 := Join(x, t12, t12, 12, 12);
    var t30 := Join(x, t24, t6, 24, 6);
    var t48 := Join(x, t24, t24, 24, 24);
    var t96 := Join(x, t48, t48, 48, 48);
    var t192 := Join(x, t96, t96, 96, 96);
    var t222 := Join(x, t192, t30, 192, 30);
    var t223 := Join(x, t222, z, 222, 1);
    var s := SqN(t223, 223);
    r := Mul(s, t222);
    SquaredCong(V(t223), Tower(x, 223), 223);
    CongTrans(V(s), Squared(V(t223), 223), Squared(Tower(x, 223), 223), P);
    CongMul(V(s), Squared(Tower(x, 223), 223), V(t222), Tower(x, 222), P);
    CongTrans(V(r), V(s) * V(t222), Squared(Tower(x, 223), 223) * Tower(x, 222), P);
    ChainIsP34(x);
  }

  // ---------------------------------------------------------------- inversion and square roots

  lemma FourthPower(z: int, e: nat)
    ensures (Pow(z, e) * Pow(z, e)) * (Pow(z, e) * Pow(z, e)) * z == Pow(z, 1 + 4 * e)
  {
    PowAdd(z, e, e);
    PowAdd(z, 2 * e, 2 * e);
    assert Pow(z, 1 + 4 * e) == z * Pow(z, 4 * e);
  }

  lemma InverseExponent(z: int)
    ensures (Pow(z, (P - 3) / 4) * Pow(z, (P - 3) / 4)) * (Pow(z, (P - 3) / 4) * Pow(z, (P - 3) / 4)) * z == Inv(z)
  {
    PrimeShape();
    FourthPower(z, (P - 3) / 4);
    assert P - 2 == 1 + 4 * ((P - 3) / 4);
  }

  /** z^(P-2) */
  method Invert(z: Elt) returns (r: Elt)
    ensures Eq(V(r), Inv(V(z)))
  {
    ghost var w := Pow(V(z), (P - 3) / 4);
    var t := PowP34(z);
    var t1 := Sq(t);
    EqSquare(V(t1), V(t), w);
    var t2 := Sq(t1);
    EqSquare(V(t2), V(t1), w * w);
    r := Mul(t2, z);
    CongRefl(V(z), P);
    EqProduct(V(r), V(t2), V(z), (w * w) * (w * w), V(z));
    InverseExponent(V(z));
  }

  /** x = u^3 v (u^5 v^3)^((P-3)/4), and whether v x^2 = u. */
  method SqrtRatio(u: Elt, v: Elt) returns (x: Elt, ok: int)
    ensures Eq(V(x), RootCandidate(V(u), V(v)))
    ensures ok == if Eq(V(x) * V(x) * V(v), V(u)) then 1 else 0
  {
    ghost var a, b := V(u), V(v);
    CongRefl(a, P);
    CongRefl(b, P);
    var u2 := Sq(u);
    var u3 := Mul(u2, u);
    EqProduct(V(u3), V(u2), a, a * a, a);
    var u5 := Mul(u3, u2);
    EqProduct(V(u5), V(u3), V(u2), a * a * a, a * a);
    var v2 := Sq(v);
    var v3 := Mul(v2, v);
    EqProduct(V(v3), V(v2), b, b * b, b);
    var t := Mul(u5, v3);
    EqProduct(V(t), V(u5), V(v3), (a * a * a) * (a * a), b * b * b);
    var root := PowP34(t);
    ghost var w := Pow(Radicand(a, b), (P - 3) / 4);
    PowCong(V(t), Radicand(a, b), (P - 3) / 4);
    CongTrans(V(root), Pow(V(t), (P - 3) / 4), w, P);
    var scaled := Mul(root, u3);
    EqProduct(V(scaled), V(root), V(u3), w, a * a * a);
    x := Mul(scaled, v);
    EqProduct(V(x), V(scaled), b, w * (a * a * a), b);
    var square := Sq(x);
    var check := Mul(square, v);
    EqProduct(V(check), V(square), b, V(x) * V(x), b);
    ok := Equal(check, u);
    if Eq(V(check), a) {
      CongSym(V(check), V(x) * V(x) * b, P);
      CongTrans(V(x) * V(x) * b, V(check), a, P);
    }
    if Eq(V(x) * V(x) * b, a) {
      CongTrans(V(check), V(x) * V(x) * b, a, P);
    }
  }
}
