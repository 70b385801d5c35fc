/** Points of the curve held in mutable records, the way the fast code holds them, and scalar
    multiplication by signed digits. The ghost parameters name the affine points the records
    stand for. */
module Ge448 {
  import opened Congruence
  import opened Prime448
  import opened Field
  import opened FieldOps
  import opened Curve
  import opened Extended

  class Ge {
    var x: Elt
    var y: Elt
    var z: Elt
    var t: Elt

    constructor ()
      ensures x == y == z == t == seq(16, _ => 0)
    {
      var zeros: Elt := seq(16, _ => 0);
      x, y, z, t := zeros, zeros, zeros, zeros;
    }

    /** All four coordinates stand for p. */
    ghost predicate Is(p: Point)
      reads this
    {
      Represents(V(x), V(y), V(z), V(t), p)
    }

    /** X, Y and Z stand for p, T may be stale: what a doubling without T leaves. */
    ghost predicate IsXyz(p: Point)
      reads this
    {
      Projective(V(x), V(y), V(z), p)
    }

    /** The cached form, whose t field holds D T. */
    ghost predicate IsCached(p: Point)
      reads this
    {
      Cached(V(x), V(y), V(z), V(t), p)
    }

    /** An affine table entry, whose t field holds D x y and whose z field is unused. */
    ghost predicate IsEntry(p: Point)
      reads this
    {
      Cached(V(x), V(y), 1, V(t), p)
    }

    method SetIdentity()
      modifies this
      ensures Is(Identity)
    {
      x := Small(0);
      y := Small(1);
      z := Small(1);
      t := Small(0);
      IdentityOnCurve();
      OneNotZero();
      CongRefl(0, P);
      CongRefl(1, P);
    }

    method Copy(src: Ge)
      modifies this
      ensures x == old(src.x) && y == old(src.y) && z == old(src.z) && t == old(src.t)
    {
      x, y, z, t := src.x, src.y, src.z, src.t;
    }

    /** this <- E F, G H, F G and, if asked, E H. */
    method Finish(e: Elt, f: Elt, g: Elt, h: Elt, withT: bool)
      modifies this
      ensures Eq(V(x), V(e) * V(f)) && Eq(V(y), V(g) * V(h)) && Eq(V(z), V(f) * V(g))
      ensures if withT then Eq(V(t), V(e) * V(h)) else t == old(t)
    {
      x := Mul(e, f);
      y := Mul(g, h);
      z := Mul(f, g);
      if withT {
        t := Mul(e, h);
      }
    }

    /** this <- 2 p; p may be this, and its T is not read. */
    method Double(p: Ge, withT: bool, ghost a: Point)
      requires FieldFacts() && p.IsXyz(a)
      modifies this
      ensures IsXyz(Twice(a)) && (withT ==> Is(Twice(a))) && (!withT ==> t == old(t))
    {
      ghost var x1, y1, z1 := V(p.x), V(p.y), V(p.z);
      var aa := Sq(p.x);
      var bb := Sq(p.y);
      var zz := Sq(p.z);
      var cc := FieldOps.Add(zz, zz);
      var s := FieldOps.Add(p.x, p.y);
      var ss := Sq(s);
      var g := FieldOps.Add(aa, bb);
      var e := Sub(ss, g);
      var f := Sub(g, cc);
      var h := Sub(aa, bb);
      Finish(e, f, g, h, withT);
      CongRefl(V(e) * V(h), P);
      ghost var t3 := if withT then V(t) else V(e) * V(h);
      DoubleFormula(a, x1, y1, z1, V(aa), V(bb), V(zz), V(cc), V(s), V(ss), V(g), V(e), V(f), V(h), V(x), V(y), V(z), t3);
      ForgetT(V(x), V(y), V(z), t3, Twice(a));
    }

    /** this <- p + q for q in cached form; p may be this. */
    method AddCached(p: Ge, q: Ge, ghost a: Point, ghost b: Point)
      requires FieldFacts() && p.Is(a) && q.IsCached(b)
      modifies this
      ensures Is(Curve.Add(a, b))
    {
      ghost var x1, y1, z1, t1 := V(p.x), V(p.y), V(p.z), V(p.t);
      ghost var x2, y2, z2, dt2 := V(q.x), V(q.y), V(q.z), V(q.t);
      var aa := Mul(p.x, q.x);
      var bb := Mul(p.y, q.y);
      var cc := Mul(p.t, q.t);
      var dd := Mul(p.z, q.z);
      var s1 := FieldOps.Add(p.x, p.y);
      var s2 := FieldOps.Add(q.x, q.y);
      var m := Mul(s1, s2);
      var ab := FieldOps.Add(aa, bb);
      var e := Sub(m, ab);
      var f := Sub(dd, cc);
      var g := FieldOps.Add(dd, cc);
      var h := Sub(bb, aa);
      Finish(e, f, g, h, true);
      AddFormula(a, b, x1, y1, z1, t1, x2, y2, z2, dt2, V(aa), V(bb), V(cc), V(dd), V(s1), V(s2), V(m), V(ab),
                 V(e), V(f), V(g), V(h), V(x), V(y), V(z), V(t));
    }

    /** this <- p + q for an affine table entry q (Z = 1); p may be this. */
    method AddAffine(p: Ge, q: Ge, ghost a: Point, ghost b: Point)
      requires FieldFacts() && p.Is(a) && q.IsEntry(b)
      modifies this
      ensures Is(Curve.Add(a, b))
    {
      ghost var x1, y1, z1, t1 := V(p.x), V(p.y), V(p.z), V(p.t);
      ghost var x2, y2, dt2 := V(q.x), V(q.y), V(q.t);
      var aa := Mul(p.x, q.x);
      var bb := Mul(p.y, q.y);
      var cc := Mul(p.t, q.t);
      var s1 := FieldOps.Add(p.x, p.y);
      var s2 := FieldOps.Add(q.x, q.y);
      var m := Mul(s1, s2);
      var ab := FieldOps.Add(aa, bb);
      var e := Sub(m, ab);
      var f := Sub(p.z, cc);
      var g := FieldOps.Add(p.z, cc);
      var h := Sub(bb, aa);
      Finish(e, f, g, h, true);
      CongRefl(z1, P);
      assert z1 * 1 == z1;
      AddFormula(a, b, x1, y1, z1, t1, x2, y2, 1, dt2, V(aa), V(bb), V(cc), z1, V(s1), V(s2), V(m), V(ab),
                 V(e), V(f), V(g), V(h), V(x), V(y), V(z), V(t));
    }

    method ToCached(p: Ge, ghost a: Point)
      requires this != p && p.Is(a)
      modifies this
      ensures IsCached(a)
    {
      x, y, z := p.x, p.y, p.z;
      t := MulSmall(p.t, -39081);
      CachedT(V(x), V(y), V(z), V(p.t), V(t), a);
    }

    /** this <- 16 this; the first three doublings skip T. */
    method Mul16(ghost a: Point)
      requires FieldFacts() && IsXyz(a)
      modifies this
      ensures Is(SixteenTimes(a))
    {
      Double(this, false, a);
      Double(this, false, Twice(a));
      Double(this, false, Twice(Twice(a)));
      Double(this, true, Twice(Twice(Twice(a))));
    }

    /** this <- -p */
    method Negate(p: Ge, ghost a: Point)
      requires p.Is(a)
      modifies this
      ensures Is(Curve.Neg(a))
    {
      ghost var x1, y1, z1, t1 := V(p.x), V(p.y), V(p.z), V(p.t);
      x := FieldOps.Neg(p.x);
      y := p.y;
      z := p.z;
      t := FieldOps.Neg(p.t);
      NegatedPoint(x1, V(y), z1, t1, a);
    }

    /** Conditional negation of a table value selected by magnitude. */
    method CNeg(negative: int)
      requires negative == 0 || negative == 1
      modifies `x, `t
      ensures V(x) == (if negative == 1 then -V(old(x)) else V(old(x)))
      ensures V(t) == (if negative == 1 then -V(old(t)) else V(old(t)))
    {
      var s := FieldOps.Neg(x);
      x := Cmov(x, s, negative);
      s := FieldOps.Neg(t);
      t := Cmov(t, s, negative);
    }
  }

  lemma CachedT(x: int, y: int, z: int, t: int, dt: int, a: Point)
    requires Represents(x, y, z, t, a) && Eq(dt, t * -39081)
    ensures Cached(x, y, z, dt, a)
  {
    assert Expand(a, a);
    CongRefl(D, P);
    EqProduct(dt, t, D, a.x * a.y * z, D);
    assert (a.x * a.y * z) * D == D * a.x * a.y * z;
  }

  function Twice(a: Point): Point {
    Curve.Add(a, a)
  }

  function SixteenTimes(a: Point): Point {
    Twice(Twice(Twice(Twice(a))))
  }

  /** Negating X and the T-like field negates the point: k is 1 for T and D for D T. */
  lemma NegateCoordinates(x: int, z: int, t: int, a: Point, k: int)
    requires OnCurve(a) && Eq(x, a.x * z) && Eq(t, k * a.x * a.y * z)
    ensures Eq(-x, Curve.Neg(a).x * z) && Eq(-t, k * Curve.Neg(a).x * a.y * z)
  {
    var n := Curve.Neg(a).x;
    NegOnCurve(a);
    CongRefl(z, P);
    CongRefl(0, P);
    CongAdd(0, 0, x, a.x * z, P);
    CongMul(n, -a.x, z, z, P);
    CongSym(n * z, -a.x * z, P);
    assert -(a.x * z) == -a.x * z;
    CongTrans(-x, -a.x * z, n * z, P);
    var w := k * a.y * z;
    CongAdd(0, 0, t, k * a.x * a.y * z, P);
    CongRefl(w, P);
    CongMul(n, -a.x, w, w, P);
    CongSym(n * w, -a.x * w, P);
    Gather(k, a.x, a.y, z);
    Gather(k, n, a.y, z);
    assert -(a.x * w) == -a.x * w;
    CongTrans(-t, -a.x * w, n * w, P);
  }

  lemma NegatedPoint(x: int, y: int, z: int, t: int, a: Point)
    requires Represents(x, y, z, t, a)
    ensures Represents(-x, y, z, -t, Curve.Neg(a))
  {
    assert Expand(a, a);
    NegOnCurve(a);
    NegateCoordinates(x, z, t, a, 1);
  }

  lemma NegatedCached(x: int, y: int, z: int, t: int, a: Point)
    requires Cached(x, y, z, t, a)
    ensures Cached(-x, y, z, -t, Curve.Neg(a))
  {
    assert Expand(a, a);
    NegOnCurve(a);
    NegateCoordinates(x, z, t, a, D);
  }

  lemma Gather(k: int, x: int, y: int, z: int)
    ensures k * x * y * z == x * (k * y * z)
  {
  }
}
