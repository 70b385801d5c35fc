/** The C group layer. Field operations are exact functions modulo P; the point structs, the
    completed coordinates between formulas, the conditional moves of the table selection and the
    two scalar multiplications follow the C code. */
module NativeGe {
  import opened Arith
  import opened Congruence
  import opened Radix
  import opened Words
  import opened Prime448
  import opened Order
  import opened Field
  import opened Curve
  import opened Group
  import opened Extended
  import opened Ge448
  import opened NativeField
  import GeScalar
  import GeSelect
  import Comb
  import Recode
  import Scalar448

  // ---------------------------------------------------------------- points

  class P3 {
    var x: int
    var y: int
    var z: int
    var t: int

    constructor ()
    {
      x, y, z, t := 0, 0, 0, 0;
    }

    ghost predicate Is(p: Point)
      reads this
    {
      Represents(x, y, z, t, p)
    }

    /** `ge448_p3_0` */
    method SetIdentity()
      modifies this
      ensures Is(Identity)
    {
      x, y, z, t := 0, 1, 1, 0;
      IdentityOnCurve();
      OneNotZero();
      CongRefl(0, P);
      CongRefl(1, P);
    }

    method Copy(src: P3)
      modifies this
      ensures x == old(src.x) && y == old(src.y) && z == old(src.z) && t == old(src.t)
    {
      x, y, z, t := src.x, src.y, src.z, src.t;
    }

    /** `ge448_p1p1_to_p3` */
    method FromCompleted(r: Completed, ghost p: Point)
      requires r.Is(p)
      modifies this
      ensures Is(p)
    {
      x := FeMul(r.e, r.f);
      y := FeMul(r.g, r.h);
      z := FeMul(r.f, r.g);
      t := FeMul(r.e, r.h);
      SameCoordinates(x, y, z, t, r.e * r.f, r.g * r.h, r.f * r.g, r.e * r.h, p);
    }

    /** `ge448_p3_neg` */
    method Negate(src: P3, ghost p: Point)
      requires src.Is(p)
      modifies this
      ensures Is(Curve.Neg(p))
    {
      ghost var u, v, w, s := src.x, src.y, src.z, src.t;
      x := FeCarry(-src.x);
      y := src.y;
      z := src.z;
      t := FeCarry(-src.t);
      NegatedPoint(u, v, w, s, p);
      CongRefl(v, P);
      CongRefl(w, P);
      SameCoordinates(x, y, z, t, -u, v, w, -s, Curve.Neg(p));
    }
  }

  /** X = E F, Y = G H, Z = F G, T = E H. */
  datatype Completed = Completed(e: int, f: int, g: int, h: int) {
    ghost predicate Is(p: Point) {
      Represents(e * f, g * h, f * g, e * h, p)
    }
  }

  /** Projective coordinates between consecutive doublings. */
  datatype P2 = P2(x: int, y: int, z: int) {
    ghost predicate Is(p: Point) {
      Projective(x, y, z, p)
    }
  }

  datatype Precomp = Precomp(x: int, y: int, dt: int) {
    ghost predicate Is(p: Point) {
      Extended.Cached(x, y, 1, dt, p)
    }
  }

  datatype CachedPoint = CachedPoint(x: int, y: int, z: int, dt: int) {
    ghost predicate Is(p: Point) {
      Extended.Cached(x, y, z, dt, p)
    }
  }

  lemma NotZeroCong(a: int, b: int)
    requires Eq(a, b) && !Zero(b)
    ensures !Zero(a)
  {
    if Zero(a) {
      CongSym(a, b, P);
      CongTrans(b, a, 0, P);
    }
  }

  /** u = c z carries over to congruent coordinates. */
  lemma SameRatio(x: int, u: int, z: int, w: int, c: int)
    requires Eq(x, u) && Eq(z, w) && Eq(u, c * w)
    ensures Eq(x, c * z)
  {
    CongRefl(c, P);
    CongMul(c, c, z, w, P);
    CongSym(c * z, c * w, P);
    CongTrans(u, c * w, c * z, P);
    CongTrans(x, u, c * z, P);
  }

  lemma SameCoordinates(x: int, y: int, z: int, t: int, u: int, v: int, w: int, s: int, p: Point)
    requires Represents(u, v, w, s, p) && Eq(x, u) && Eq(y, v) && Eq(z, w) && Eq(t, s)
    ensures Represents(x, y, z, t, p)
  {
    assert Expand(p, p);
    NotZeroCong(z, w);
    SameRatio(x, u, z, w, p.x);
    SameRatio(y, v, z, w, p.y);
    SameRatio(t, s, z, w, p.x * p.y);
  }

  /** `ge448_p1p1_to_p2` */
  method ToP2(r: Completed, ghost p: Point) returns (s: P2)
    requires r.Is(p)
    ensures s.Is(p)
  {
    var x := FeMul(r.e, r.f);
    var y := FeMul(r.g, r.h);
    var z := FeMul(r.f, r.g);
    s := P2(x, y, z);
    CongRefl(r.e * r.h, P);
    SameCoordinates(x, y, z, r.e * r.h, r.e * r.f, r.g * r.h, r.f * r.g, r.e * r.h, p);
    ForgetT(x, y, z, r.e * r.h, p);
  }

  /** `ge448_p3_to_cached` */
  method ToCached(p: P3, ghost a: Point) returns (r: CachedPoint)
    requires p.Is(a)
    ensures r.Is(a)
  {
    var dt := FeMul(p.t, D % P);
    r := CachedPoint(p.x, p.y, p.z, dt);
    CongMod(D, P);
    CongRefl(p.t, P);
    EqProduct(dt, p.t, D % P, p.t, D);
    CachedT(p.x, p.y, p.z, p.t, dt, a);
  }

  // ---------------------------------------------------------------- formulas

  lemma CompletedSelf(e: int, f: int, g: int, h: int)
    ensures Eq(e * f, e * f) && Eq(g * h, g * h) && Eq(f * g, f * g) && Eq(e * h, e * h)
  {
    CongRefl(e * f, P);
    CongRefl(g * h, P);
    CongRefl(f * g, P);
    CongRefl(e * h, P);
  }

  /** `ge448_dbl` */
  method Dbl(s: P2, ghost p: Point) returns (r: Completed)
    requires FieldFacts() && s.Is(p)
    ensures r.Is(Twice(p))
  {
    var a := FeMul(s.x, s.x);
    var b := FeMul(s.y, s.y);
    var zz := FeMul(s.z, s.z);
    var c := FeAdd(zz, zz);
    var g := FeAdd(a, b);
    var gt := FeCarry(g);
    var f := FeSub(gt, c);
    var t := FeAdd(s.x, s.y);
    var ss := FeMul(t, t);
    var e := FeSub(ss, gt);
    var h := FeSub(a, b);
    r := Completed(e, f, g, h);
    CongRefl(c, P);
    CongRefl(ss, P);
    EqDifference(f, gt, c, g, c);
    EqDifference(e, ss, gt, ss, g);
    CompletedSelf(e, f, g, h);
    DoubleFormula(p, s.x, s.y, s.z, a, b, zz, c, t, ss, g, e, f, h, e * f, g * h, f * g, e * h);
  }

  /** `ge448_add` */
  method Sum(p: P3, q: CachedPoint, ghost a: Point, ghost b: Point) returns (r: Completed)
    requires FieldFacts() && p.Is(a) && q.Is(b)
    ensures r.Is(Curve.Add(a, b))
  {
    var aa := FeMul(p.x, q.x);
    var bb := FeMul(p.y, q.y);
    var cc := FeMul(p.t, q.dt);
    var dd := FeMul(p.z, q.z);
    r := Combine(p, q.x, q.y, aa, bb, cc, dd, q.z, q.dt, a, b);
  }

  /** The sums and differences both additions end with. */
  method Combine(p: P3, x2: int, y2: int, aa: int, bb: int, cc: int, dd: int,
                 ghost z2: int, ghost dt2: int, ghost a: Point, ghost b: Point) returns (r: Completed)
    requires FieldFacts() && p.Is(a) && Extended.Cached(x2, y2, z2, dt2, b)
    requires Eq(aa, p.x * x2) && Eq(bb, p.y * y2) && Eq(cc, p.t * dt2) && Eq(dd, p.z * z2)
    ensures r.Is(Curve.Add(a, b))
  {
    var t1 := FeAdd(p.x, p.y);
    var t2 := FeAdd(x2, y2);
    var m := FeMul(t1, t2);
    var ab := FeAdd(aa, bb);
    var e := FeSub(m, ab);
    var f := FeSub(dd, cc);
    var g := FeAdd(dd, cc);
    var h := FeSub(bb, aa);
    r := Completed(e, f, g, h);
    CompletedSelf(e, f, g, h);
    AddFormula(a, b, p.x, p.y, p.z, p.t, x2, y2, z2, dt2, aa, bb, cc, dd, t1, t2, m, ab, e, f, g, h,
               e * f, g * h, f * g, e * h);
  }

  /** `ge448_madd` */
  method MixedSum(p: P3, q: Precomp, ghost a: Point, ghost b: Point) returns (r: Completed)
    requires FieldFacts() && p.Is(a) && q.Is(b)
    ensures r.Is(Curve.Add(a, b))
  {
    var aa := FeMul(p.x, q.x);
    var bb := FeMul(p.y, q.y);
    var cc := FeMul(p.t, q.dt);
    CongRefl(p.z, P);
    assert p.z * 1 == p.z;
    r := Combine(p, q.x, q.y, aa, bb, cc, p.z, 1, q.dt, a, b);
  }

  /** `ge448_mul16`: only the last doubling computes T. */
  method Mul16(h: P3, ghost p: Point)
    requires FieldFacts() && h.Is(p)
    modifies h
    ensures h.Is(SixteenTimes(p))
  {
    ForgetT(h.x, h.y, h.z, h.t, p);
    var r := Dbl(P2(h.x, h.y, h.z), p);
    var s := ToP2(r, Twice(p));
    r := Dbl(s, Twice(p));
    s := ToP2(r, Twice(Twice(p)));
    r := Dbl(s, Twice(Twice(p)));
    s := ToP2(r, Twice(Twice(Twice(p))));
    r := Dbl(s, Twice(Twice(Twice(p))));
    h.FromCompleted(r, SixteenTimes(p));
  }

  // ---------------------------------------------------------------- table selection

  /** `(x - 1) >> 63` on 64 bits: the borrow out of the top is set only when x is zero. */
  method TopBorrow(x: int) returns (r: int)
    requires 0 <= x < 0x1_0000_0000
    ensures r == if x == 0 then 1 else 0
  {
    r := ((x - 1) % 0x1_0000_0000_0000_0000) / 0x8000_0000_0000_0000;
  }

  lemma DifferenceBits(a: int, b: int)
    requires 0 <= a < 0x1_0000_0000 && 0 <= b < 0x1_0000_0000
    ensures 0 <= Lxor(a, b) < 0x1_0000_0000 && (Lxor(a, b) == 0 <==> a == b)
  {
    WordPowers();
    LxorBelow(a, b, 32);
    LxorIsZero(a, b);
  }

  /** `((uint64_t)(a ^ b) - 1) >> 63` */
  method CtEq(a: int, b: int) returns (r: int)
    requires 0 <= a < 0x1_0000_0000 && 0 <= b < 0x1_0000_0000
    ensures r == if a == b then 1 else 0
  {
    DifferenceBits(a, b);
    r := TopBorrow(Lxor(a, b));
  }

  /** `(uint32_t)digit >> 31`, and the magnitude by exclusive or and addition. */
  method SignMagnitude(digit: int) returns (negative: int, magnitude: int)
    requires -8 <= digit <= 8
    ensures negative == (if digit < 0 then 1 else 0) && magnitude == (if digit < 0 then -digit else digit)
  {
    LxorOnes(digit);
    LxorZero(digit);
    negative := (digit % 0x1_0000_0000) / 0x8000_0000;
    magnitude := Lxor(digit, -negative) + negative;
  }

  ghost predicate PrecompTable(table: seq<Precomp>, n: int, b: Point) {
    |table| == 8 && forall i :: 0 <= i < 8 ==> PrecompAt(table, i, n, b)
  }

  ghost predicate PrecompAt(table: seq<Precomp>, i: nat, n: int, b: Point) {
    i < |table| && table[i].Is(SMul((i + 1) * n, b))
  }

  /** `ge448_precomp_select`: t is moved to the entry whose index is the magnitude. */
  method SelectPrecomp(table: seq<Precomp>, digit: int, ghost n: int, ghost b: Point) returns (t: Precomp)
    requires GroupFacts() && OnCurve(b) && PrecompTable(table, n, b) && -8 <= digit <= 8
    ensures t.Is(SMul(digit * n, b))
  {
    var negative, magnitude := SignMagnitude(digit);
    t := Precomp(0, 1, 0);
    for i := 0 to 8
      invariant t == if 1 <= magnitude <= i then table[magnitude - 1] else Precomp(0, 1, 0)
    {
      var move := CtEq(magnitude, i + 1);
      t := if move == 1 then table[i] else t;
    }
    GeSelect.IdentityCached();
    if magnitude > 0 {
      assert PrecompAt(table, magnitude - 1, n, b);
    }
    var minusX := FeCarry(-t.x);
    var minusT := FeCarry(-t.dt);
    NegatedEntry(t.x, t.y, 1, t.dt, minusX, minusT, SMul(magnitude * n, b));
    SMulNeg(magnitude * n, b);
    NegateProduct(magnitude, n);
    t := if negative == 1 then Precomp(minusX, t.y, minusT) else t;
  }

  lemma NegatedEntry(x: int, y: int, z: int, dt: int, mx: int, mt: int, p: Point)
    requires Extended.Cached(x, y, z, dt, p) && Eq(mx, -x) && Eq(mt, -dt)
    ensures Extended.Cached(mx, y, z, mt, Curve.Neg(p))
  {
    var n := Curve.Neg(p);
    NegatedCached(x, y, z, dt, p);
    assert Expand(n, n);
    CongTrans(mx, -x, n.x * z, P);
    CongTrans(mt, -dt, D * n.x * n.y * z, P);
  }

  ghost predicate CachedTable(table: seq<CachedPoint>, b: Point) {
    |table| == 8 && forall i :: 0 <= i < 8 ==> CachedEntry(table, i, b)
  }

  ghost predicate CachedEntry(table: seq<CachedPoint>, i: nat, b: Point) {
    i < |table| && table[i].Is(SMul(i + 1, b))
  }

  /** `ge448_cached_select` */
  method SelectCached(table: seq<CachedPoint>, digit: int, ghost b: Point) returns (t: CachedPoint)
    requires GroupFacts() && OnCurve(b) && CachedTable(table, b) && -8 <= digit <= 8
    ensures t.Is(SMul(digit, b))
  {
    var negative, magnitude := SignMagnitude(digit);
    t := CachedPoint(0, 1, 1, 0);
    for i := 0 to 8
      invariant t == if 1 <= magnitude <= i then table[magnitude - 1] else CachedPoint(0, 1, 1, 0)
    {
      var move := CtEq(magnitude, i + 1);
      t := if move == 1 then table[i] else t;
    }
    GeSelect.IdentityCached();
    if magnitude > 0 {
      assert CachedEntry(table, magnitude - 1, b);
    }
    var minusX := FeCarry(-t.x);
    var minusT := FeCarry(-t.dt);
    NegatedEntry(t.x, t.y, t.z, t.dt, minusX, minusT, SMul(magnitude, b));
    SMulNeg(magnitude, b);
    t := if negative == 1 then CachedPoint(minusX, t.y, t.z, minusT) else t;
  }

  // ---------------------------------------------------------------- scalar multiplication

  /** ED448_BASE_TABLE[j] holds the multiples of 2^(32 j) B. */
  ghost predicate BaseTables(tables: seq<seq<Precomp>>, b: Point) {
    |tables| == 14 && forall j :: 0 <= j < 14 ==> PrecompTable(tables[j], Pow(16, 8 * j), b)
  }

  method Shift(h: P3, first: bool, ghost total: int, ghost p: Point)
    requires GroupFacts() && OnCurve(p) && h.Is(SMul(total, p)) && (first ==> total == 0)
    modifies h
    ensures h.Is(SMul(16 * total, p))
  {
    if !first {
      Mul16(h, SMul(total, p));
      GeScalar.SixteenMultiples(total, p);
    }
  }

  method AddDigit(h: P3, table: seq<Precomp>, digit: int, ghost w: int, ghost acc: int, ghost n: int, ghost b: Point)
    requires GroupFacts() && OnCurve(b) && PrecompTable(table, w, b) && -8 <= digit <= 8
    requires h.Is(SMul(acc, b)) && n == digit * w
    modifies h
    ensures h.Is(SMul(acc + n, b))
  {
    var t := SelectPrecomp(table, digit, w, b);
    GeScalar.AddMultiples(acc, n, b);
    var r := MixedSum(h, t, SMul(acc, b), SMul(n, b));
    h.FromCompleted(r, Curve.Add(SMul(acc, b), SMul(n, b)));
  }

  method AddRow(h: P3, tables: seq<seq<Precomp>>, e: seq<int>, i: nat, ghost acc: int, ghost b: Point)
    requires GroupFacts() && OnCurve(b) && BaseTables(tables, b)
    requires Recode.SignedDigits(e) && i < 8 && h.Is(SMul(acc, b))
    modifies h
    ensures h.Is(SMul(acc + Comb.Row(e, 14, i), b))
  {
    ghost var total := acc;
    for j := 0 to 14
      invariant total == acc + Comb.Row(e, j, i) && h.Is(SMul(total, b))
    {
      var digit := e[8 * j + i];
      ghost var n := digit * Pow(16, 8 * j);
      AddDigit(h, tables[j], digit, Pow(16, 8 * j), total, n, b);
      total := total + n;
    }
  }

  /** `ge448_scalarmult_base` */
  method ScalarmultBase(h: P3, a: array<int>, tables: seq<seq<Precomp>>, ghost b: Point)
    requires GroupFacts() && OnCurve(b) && BaseTables(tables, b)
    requires a.Length == 14 && Scalar448.Reduced(a[..]) && Val(0x1_0000_0000, a[..]) < TWO_446
    modifies h
    ensures h.Is(SMul(Val(0x1_0000_0000, a[..]), b))
  {
    var e := new int[112];
    Recode.FromWords(e, a[..]);
    ghost var digits := e[..];
    assert SMul(0, b) == Identity;
    h.SetIdentity();
    var i := 8;
    while i > 0
      invariant 0 <= i <= 8 && h.Is(SMul(Comb.Rows(digits, 14, i), b))
      invariant e[..] == digits && fresh(e)
    {
      i := i - 1;
      ghost var total := Comb.Rows(digits, 14, i + 1);
      Shift(h, i == 7, total, b);
      AddRow(h, tables, e[..], i, 16 * total, b);
    }
    Comb.RowsAreValue(digits, 14);
    assert digits[..112] == digits;
  }

  method DoubleInto(m: P3, src: P3, ghost n: int, ghost a: Point)
    requires GroupFacts() && OnCurve(a) && src.Is(SMul(n, a))
    modifies m
    ensures m.Is(SMul(2 * n, a))
  {
    ForgetT(src.x, src.y, src.z, src.t, SMul(n, a));
    GeScalar.TwiceMultiple(n, a);
    var r := Dbl(P2(src.x, src.y, src.z), SMul(n, a));
    m.FromCompleted(r, Twice(SMul(n, a)));
  }

  method AddP(m: P3, src: P3, c: CachedPoint, ghost n: int, ghost a: Point)
    requires GroupFacts() && OnCurve(a) && src.Is(SMul(n, a)) && c.Is(a)
    modifies m
    ensures m.Is(SMul(n + 1, a))
  {
    SMulSucc(n, a);
    var r := Sum(src, c, SMul(n, a), a);
    m.FromCompleted(r, Curve.Add(SMul(n, a), a));
  }

  method NewPoints(n: nat) returns (ms: seq<P3>)
    ensures |ms| == n && fresh(ms) && forall i, j :: 0 <= i < j < n ==> ms[i] != ms[j]
  {
    ms := [];
    for i := 0 to n
      invariant |ms| == i && fresh(ms) && forall j, k :: 0 <= j < k < i ==> ms[j] != ms[k]
    {
      var m := new P3();
      ms := ms + [m];
    }
  }

  /** 1P to 4P. */
  method LowMultiples(ms: seq<P3>, p: P3, ghost a: Point) returns (c: CachedPoint)
    requires GroupFacts() && p.Is(a) && |ms| == 8 && p !in ms
    requires forall i, j :: 0 <= i < j < 8 ==> ms[i] != ms[j]
    modifies ms[0], ms[1], ms[2], ms[3]
    ensures c.Is(a) && forall k :: 0 <= k < 4 ==> ms[k].Is(SMul(k + 1, a))
  {
    assert forall k :: 0 <= k < 8 ==> ms[k] in ms;
    DoubleIsTwice(a);
    ms[0].Copy(p);
    c := ToCached(ms[0], a);
    DoubleInto(ms[1], ms[0], 1, a);
    AddP(ms[2], ms[1], c, 2, a);
    DoubleInto(ms[3], ms[1], 2, a);
  }

  /** 5P to 8P. */
  method HighMultiples(ms: seq<P3>, c: CachedPoint, ghost a: Point)
    requires GroupFacts() && OnCurve(a) && c.Is(a) && |ms| == 8
    requires forall i, j :: 0 <= i < j < 8 ==> ms[i] != ms[j]
    requires forall k :: 0 <= k < 4 ==> ms[k].Is(SMul(k + 1, a))
    modifies ms[4], ms[5], ms[6], ms[7]
    ensures forall k :: 4 <= k < 8 ==> ms[k].Is(SMul(k + 1, a))
  {
    AddP(ms[4], ms[3], c, 4, a);
    DoubleInto(ms[5], ms[2], 3, a);
    AddP(ms[6], ms[5], c, 6, a);
    DoubleInto(ms[7], ms[3], 4, a);
  }

  /** The table of P, 2P, ..., 8P in cached form. */
  method BuildTable(p: P3, ghost a: Point) returns (table: seq<CachedPoint>)
    requires GroupFacts() && p.Is(a)
    ensures CachedTable(table, a)
  {
    var ms := NewPoints(8);
    var c := LowMultiples(ms, p, a);
    HighMultiples(ms, c, a);
    table := [c];
    DoubleIsTwice(a);
    for i := 1 to 8
      invariant |table| == i && forall k :: 0 <= k < 8 ==> ms[k].Is(SMul(k + 1, a))
      invariant forall k :: 0 <= k < i ==> CachedEntry(table, k, a)
    {
      var next := ToCached(ms[i], SMul(i + 1, a));
      ghost var before := table;
      table := table + [next];
      forall k | 0 <= k < i + 1 ensures CachedEntry(table, k, a) {
        assert k < i ==> CachedEntry(before, k, a);
      }
    }
  }

  method WindowStep(h: P3, table: seq<CachedPoint>, first: bool, digit: int, ghost total: int, ghost p: Point)
    requires GroupFacts() && OnCurve(p) && CachedTable(table, p) && -8 <= digit <= 8
    requires h.Is(SMul(total, p)) && (first ==> total == 0)
    modifies h
    ensures h.Is(SMul(16 * total + digit, p))
  {
    Shift(h, first, total, p);
    var t := SelectCached(table, digit, p);
    ghost var n := 16 * total;
    GeScalar.AddMultiples(n, digit, p);
    var r := Sum(h, t, SMul(n, p), SMul(digit, p));
    h.FromCompleted(r, Curve.Add(SMul(n, p), SMul(digit, p)));
  }

  /** `ge448_scalarmult` */
  method Scalarmult(h: P3, a: array<int>, p: P3, ghost b: Point)
    requires GroupFacts() && p.Is(b)
    requires a.Length == 14 && Scalar448.Reduced(a[..]) && Val(0x1_0000_0000, a[..]) < TWO_446
    modifies h
    ensures h.Is(SMul(Val(0x1_0000_0000, a[..]), b))
  {
    var table := BuildTable(p, b);
    var e := new int[112];
    Recode.FromWords(e, a[..]);
    Windows(h, table, e[..], b);
  }

  method Windows(h: P3, table: seq<CachedPoint>, e: seq<int>, ghost p: Point)
    requires GroupFacts() && OnCurve(p) && CachedTable(table, p) && Recode.SignedDigits(e)
    modifies h
    ensures h.Is(SMul(Val(16, e), p))
  {
    assert SMul(0, p) == Identity;
    h.SetIdentity();
    var i := 112;
    ghost var total := 0;
    while i > 0
      invariant 0 <= i <= 112 && total == Val(16, e[i..]) && h.Is(SMul(total, p))
    {
      i := i - 1;
      WindowStep(h, table, i == 111, e[i], total, p);
      Comb.Window(e, i);
      assert e[112..] == [];
      total := 16 * total + e[i];
    }
    assert e[0..] == e;
  }
}
