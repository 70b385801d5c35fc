/** The C field layer above the limb arithmetic: exponentiation chains, byte comparisons and the
    conditional swap. The limb operations are exact functions modulo P here. */
module NativeField {
  import opened Congruence
  import opened Radix
  import opened Words
  import opened Prime448
  import opened Field
  import opened FieldOps
  import K = Fe448

  const LIMB: int := 0x1_0000_0000_0000_0000

  method FeMul(f: int, g: int) returns (h: int)
    ensures Eq(h, f * g)
  {
    h := f * g % P;
    CongMod(f * g, P);
  }

  method FeCarry(f: int) returns (h: int)
    ensures Eq(h, f)
  {
    h := f % P;
    CongMod(f, P);
  }

  method FeAdd(f: int, g: int) returns (h: int)
    ensures Eq(h, f + g)
  {
    h := FeCarry(f + g);
  }

  method FeSub(f: int, g: int) returns (h: int)
    ensures Eq(h, f - g)
  {
    h := FeCarry(f - g);
  }

  /** `fe_tobytes`: the canonical encoding. */
  function FeToBytes(f: int): (s: Octets)
    ensures |s| == 56
  {
    ToDigits(256, f % P, 56)
  }

  // ---------------------------------------------------------------- comparisons

  /** `1 & ((acc - 1) >> 63)` on 64 bits: the borrow is set only when acc is zero. */
  method ZeroBit(acc: int) returns (r: int)
    requires 0 <= acc < 0x1_0000_0000
    ensures r == if acc == 0 then 1 else 0
  {
    r := ((acc - 1) % LIMB) / 0x8000_0000_0000_0000 % 2;
  }

  /** `ct_bytes_eq`: 1 if the first len bytes agree, 0 otherwise. */
  method CtBytesEq(a: Octets, b: Octets, len: nat) returns (r: int)
    requires len <= |a| && len <= |b|
    ensures r == if a[..len] == b[..len] then 1 else 0
  {
    var acc := 0;
    for i := 0 to len
      invariant 0 <= acc < 256
      invariant acc == 0 <==> a[..i] == b[..i]
    {
      WordPowers();
      LxorBelow(a[i], b[i], 8);
      LxorIsZero(a[i], b[i]);
      LorBelow(acc, Lxor(a[i], b[i]), 8);
      LorIsZero(acc, Lxor(a[i], b[i]));
      assert a[..i + 1] == a[..i] + [a[i]] && b[..i + 1] == b[..i] + [b[i]];
      acc := Lor(acc, Lxor(a[i], b[i]));
    }
    r := ZeroBit(acc);
  }

  /** `fe_equal`: 1 exactly for congruent elements. */
  method FeEqual(f: int, g: int) returns (r: int)
    ensures r == if Eq(f, g) then 1 else 0
  {
    var s, t := FeToBytes(f), FeToBytes(g);
    CongIff(f, g, P);
    K.CanonicalInjective(f % P, g % P);
    assert s[..56] == s && t[..56] == t;
    r := CtBytesEq(s, t, 56);
  }

  /** `fe_isnonzero` */
  method FeIsNonzero(f: int) returns (r: int)
    ensures r == if Zero(f) then 0 else 1
  {
    var s, zeros := FeToBytes(f), seq(56, _ => 0);
    CongIff(f, 0, P);
    K.CanonicalInjective(f % P, 0);
    K.ZeroBytes(56);
    assert s[..56] == s && zeros[..56] == zeros;
    var same := CtBytesEq(s, zeros, 56);
    r := Lxor(1, same);
  }

  /** `fe_isnegative`: the low bit of the canonical representative. */
  method FeIsNegative(f: int) returns (r: int)
    ensures r == f % P % 2
  {
    var s := FeToBytes(f);
    K.LowBit(f % P, s);
    r := s[0] % 2;
  }

  /** `fe_cswap`: swap the limbs of f and g if b = 1. */
  method FeCswap(f: array<int>, g: array<int>, b: int)
    requires f != g && f.Length == g.Length == 8 && (b == 0 || b == 1)
    requires Digits(LIMB, f[..]) && Digits(LIMB, g[..])
    modifies f, g
    ensures f[..] == old(if b == 0 then f[..] else g[..])
    ensures g[..] == old(if b == 0 then g[..] else f[..])
  {
    ghost var u, v := f[..], g[..];
    var mask := (-b) % LIMB;
    for i := 0 to 8
      invariant forall k :: 0 <= k < i ==> f[k] == (if b == 0 then u[k] else v[k]) && g[k] == if b == 0 then v[k] else u[k]
      invariant forall k :: i <= k < 8 ==> f[k] == u[k] && g[k] == v[k]
    {
      assert f[i] == u[i] && g[i] == v[i];
      MaskedDifference(f[i], g[i], mask);
      var x := Land(Lxor(f[i], g[i]), mask);
      f[i] := Lxor(f[i], x);
      g[i] := Lxor(g[i], x);
    }
  }

  lemma LimbPower()
    ensures Pow(2, 64) == LIMB
  {
    WordPowers();
    PowAdd(2, 32, 32);
  }

  /** Exclusive or with the masked difference swaps, or does nothing. */
  lemma MaskedDifference(x: int, y: int, mask: int)
    requires 0 <= x < LIMB && 0 <= y < LIMB && (mask == 0 || mask == LIMB - 1)
    ensures var d := Land(Lxor(x, y), mask);
      Lxor(x, d) == (if mask == 0 then x else y) && Lxor(y, d) == if mask == 0 then y else x
  {
    LimbPower();
    LxorBelow(x, y, 64);
    LandMask(Lxor(x, y));
    AllOnes(Lxor(x, y), 64);
    LxorZero(x);
    LxorZero(y);
    LxorCancel(x, y);
    LxorCommutes(x, y);
    LxorCancel(y, x);
  }

  // ---------------------------------------------------------------- exponentiation

  /** `fe_sq_n`: f^(2^n) */
  method FeSqN(f: int, n: nat) returns (h: int)
    requires n >= 1
    ensures Eq(h, Squared(f, n))
  {
    h := FeMul(f, f);
    assert Squared(f, 1) == f * f;
    for i := 1 to n
      invariant Eq(h, Squared(f, i))
    {
      var s := FeMul(h, h);
      var w := Squared(f, i);
      CongMul(h, w, h, w, P);
      CongTrans(s, h * h, w * w, P);
      h := s;
    }
  }

  /** t_j^(2^k) t_k */
  method FeJoin(ghost z: int, a: int, b: int, ghost j: nat, k: nat) returns (r: int)
    requires k >= 1 && Eq(a, Tower(z, j)) && Eq(b, Tower(z, k))
    ensures Eq(r, Tower(z, j + k))
  {
    var s := FeSqN(a, k);
    SquaredCong(a, Tower(z, j), k);
    CongTrans(s, Squared(a, k), Squared(Tower(z, j), k), P);
    r := FeMul(s, b);
    CongMul(s, Squared(Tower(z, j), k), b, Tower(z, k), P);
    TowerAdd(z, j, k);
    CongTrans(r, s * b, Tower(z, j + k), P);
  }

  /** `fe_pow_p34` */
  method FePowP34(z: int) returns (h: int)
    ensures Eq(h, Pow(z, (P - 3) / 4))
  {
    assert Tower(z, 1) == z;
    CongRefl(z, P);
    var t2 := FeJoin(z, z, z, 1, 1);
    var t3 := FeJoin(z, t2, z, 2, 1);
    var t6 := FeJoin(z, t3, t3, 3, 3);
    var t12 := FeJoin(z, t6, t6, 6, 6);
    var t24 := FeJoin(z, t12, t12, 12, 12);
    var t30 := FeJoin(z, t24, t6, 24, 6);
    var t48 := FeJoin(z, t24, t24, 24, 24);
    var t96 := FeJoin(z, t48, t48, 48, 48);
    var t192 := FeJoin(z, t96, t96, 96, 96);
    var t222 := FeJoin(z, t192, t30, 192, 30);
    var t223 := FeJoin(z, t222, z, 222, 1);
    var s := FeSqN(t223, 223);
    h := FeMul(s, t222);
    SquaredCong(t223, Tower(z, 223), 223);
    CongTrans(s, Squared(t223, 223), Squared(Tower(z, 223), 223), P);
    CongMul(s, Squared(Tower(z, 223), 223), t222, Tower(z, 222), P);
    CongTrans(h, s * t222, Squared(Tower(z, 223), 223) * Tower(z, 222), P);
    ChainIsP34(z);
  }

  /** `fe_invert`: z^(P-2) */
  method FeInvert(z: int) returns (h: int)
    ensures Eq(h, Inv(z))
  {
    ghost var w := Pow(z, (P - 3) / 4);
    var t := FePowP34(z);
    var t1 := FeMul(t, t);
    EqSquare(t1, t, w);
    var t2 := FeMul(t1, t1);
    EqSquare(t2, t1, w * w);
    h := FeMul(t2, z);
    CongRefl(z, P);
    EqProduct(h, t2, z, (w * w) * (w * w), z);
    InverseExponent(z);
  }

  /** `fe_sqrt_ratio`: x = u^3 v (u^5 v^3)^((P-3)/4), and whether v x^2 = u. */
  method FeSqrtRatio(u: int, v: int) returns (x: int, ok: int)
    ensures Eq(x, RootCandidate(u, v)) && ok == if Eq(x * x * v, u) then 1 else 0
  {
    CongRefl(u, P);
    CongRefl(v, P);
    var u2 := FeMul(u, u);
    var u3 := FeMul(u2, u);
    EqProduct(u3, u2, u, u * u, u);
    var u5 := FeMul(u3, u2);
    EqProduct(u5, u3, u2, u * u * u, u * u);
    var v2 := FeMul(v, v);
    var v3 := FeMul(v2, v);
    EqProduct(v3, v2, v, v * v, v);
    var t := FeMul(u5, v3);
    EqProduct(t, u5, v3, (u * u * u) * (u * u), v * v * v);
    x := FinishRoot(u, v, t, u3);
    var square := FeMul(x, x);
    var check := FeMul(square, v);
    EqProduct(check, square, v, x * x, v);
    ok := FeEqual(check, u);
    SameSide(check, x * x * v, u);
  }

  method FinishRoot(u: int, v: int, t: int, u3: int) returns (x: int)
    requires Eq(t, Radicand(u, v)) && Eq(u3, u * u * u)
    ensures Eq(x, RootCandidate(u, v))
  {
    ghost var w := Pow(Radicand(u, v), (P - 3) / 4);
    var root := FePowP34(t);
    PowCong(t, Radicand(u, v), (P - 3) / 4);
    CongTrans(root, Pow(t, (P - 3) / 4), w, P);
    var scaled := FeMul(root, u3);
    EqProduct(scaled, root, u3, w, u * u * u);
    x := FeMul(scaled, v);
    CongRefl(v, P);
    EqProduct(x, scaled, v, w * (u * u * u), v);
  }

  lemma SameSide(a: int, b: int, c: int)
    requires Eq(a, b)
    ensures Eq(a, c) <==> Eq(b, c)
  {
    CongSym(a, b, P);
    if Eq(a, c) {
      CongTrans(b, a, c, P);
    }
    if Eq(b, c) {
      CongTrans(a, b, c, P);
    }
  }
}
