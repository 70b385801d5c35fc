/** How the fixed-base table is generated: the affine multiples (t + 1) 2^(32 j) B by repeated
    addition, each coordinate carried into balanced limbs. */
module BaseTables {
  import opened Arith
  import opened Congruence
  import opened Radix
  import opened Prime448
  import opened Field
  import opened Curve
  import opened Group
  import opened Extended
  import opened GeSelect
  import NativeGe
  import K = Fe448Kernels

  /** The generator's addition, with every intermediate reduced modulo P. */
  function TableAdd(p: Point, q: Point): Point {
    var t := ((D % P) * p.x * q.x * p.y * q.y) % P;
    Point(((p.x * q.y + p.y * q.x) * (Pow(1 + t, P - 2) % P)) % P,
          ((p.y * q.y - p.x * q.x) * (Pow(1 - t, P - 2) % P)) % P)
  }

  lemma ReducedQuotient(n: int, w: int, u: int)
    requires Eq(w, u)
    ensures (n * (Pow(w, P - 2) % P)) % P == (n * Inv(u)) % P
  {
    PowCong(w, u, P - 2);
    CongMod(Pow(w, P - 2), P);
    CongTrans(Pow(w, P - 2) % P, Pow(w, P - 2), Inv(u), P);
    CongRefl(n, P);
    CongMul(n, n, Pow(w, P - 2) % P, Inv(u), P);
    CongIff(n * (Pow(w, P - 2) % P), n * Inv(u), P);
  }

  lemma ReducedCross(p: Point, q: Point)
    ensures Eq(((D % P) * p.x * q.x * p.y * q.y) % P, Cross(p, q))
  {
    var w := p.x * q.x * p.y * q.y;
    CongMod(D, P);
    CongRefl(w, P);
    CongMul(D % P, D, w, w, P);
    FiveFactors(D % P, p.x, q.x, p.y, q.y);
    FiveFactors(D, p.x, q.x, p.y, q.y);
    CongMod((D % P) * w, P);
    CongTrans(((D % P) * w) % P, (D % P) * w, D * w, P);
  }

  lemma FiveFactors(d: int, a: int, b: int, c: int, e: int)
    ensures d * a * b * c * e == d * (a * b * c * e) && d * (a * b * c * e) == d * (a * b) * (c * e)
  {
  }

  lemma TableAddIsAdd(p: Point, q: Point)
    ensures TableAdd(p, q) == Curve.Add(p, q)
  {
    var t := ((D % P) * p.x * q.x * p.y * q.y) % P;
    ReducedCross(p, q);
    CongRefl(1, P);
    CongAdd(1, 1, t, Cross(p, q), P);
    ReducedQuotient(NumX(p, q), 1 + t, 1 + Cross(p, q));
    ReducedQuotient(NumY(p, q), 1 - t, 1 - Cross(p, q));
  }

  // ---------------------------------------------------------------- the points

  /** Thirty-two doublings. */
  method Spread(base: Point, ghost n: int, ghost b: Point) returns (r: Point)
    requires GroupFacts() && OnCurve(b) && base == SMul(n, b)
    ensures r == SMul(n * Pow(2, 32), b)
  {
    r := base;
    for i := 0 to 32
      invariant r == SMul(n * Pow(2, i), b)
    {
      TableAddIsAdd(r, r);
      SMulAdd(n * Pow(2, i), n * Pow(2, i), b);
      DoublePower(n, i);
      r := TableAdd(r, r);
    }
  }

  lemma DoublePower(n: int, i: nat)
    ensures n * Pow(2, i) + n * Pow(2, i) == n * Pow(2, i + 1)
  {
    assert Pow(2, i + 1) == 2 * Pow(2, i);
    assert n * (2 * Pow(2, i)) == 2 * (n * Pow(2, i));
  }

  lemma ColumnPower(j: nat)
    ensures Pow(16, 8 * j) * Pow(2, 32) == Pow(16, 8 * (j + 1))
  {
    PowMul(2, 4, 8);
    assert Pow(2, 4) == 16;
    PowAdd(16, 8 * j, 8);
  }

  /** The eight multiples of one base point. */
  method Column(base: Point, ghost n: int, ghost b: Point) returns (pts: seq<Point>)
    requires GroupFacts() && OnCurve(b) && base == SMul(n, b)
    ensures |pts| == 8 && forall k :: 0 <= k < 8 ==> pts[k] == SMul((k + 1) * n, b)
  {
    pts := [];
    var point := base;
    ghost var m := n;
    for k := 0 to 8
      invariant |pts| == k && m == (k + 1) * n && point == SMul(m, b)
      invariant forall i :: 0 <= i < k ==> pts[i] == SMul((i + 1) * n, b)
    {
      pts := pts + [point];
      TableAddIsAdd(point, base);
      SMulAdd(m, n, b);
      OneMore(k + 1, n);
      point := TableAdd(point, base);
      m := m + n;
    }
  }

  ghost predicate PointAt(pts: seq<Point>, b: Point, j: nat, k: nat) {
    8 * j + k < |pts| && pts[8 * j + k] == SMul((k + 1) * Pow(16, 8 * j), b)
  }

  lemma ColumnAppended(pts: seq<Point>, column: seq<Point>, b: Point, j: nat)
    requires |pts| == 8 * j && |column| == 8
    requires forall i, k :: 0 <= i < j && 0 <= k < 8 ==> PointAt(pts, b, i, k)
    requires forall k :: 0 <= k < 8 ==> column[k] == SMul((k + 1) * Pow(16, 8 * j), b)
    ensures forall i, k :: 0 <= i < j + 1 && 0 <= k < 8 ==> PointAt(pts + column, b, i, k)
  {
    forall i, k | 0 <= i < j + 1 && 0 <= k < 8 ensures PointAt(pts + column, b, i, k) {
      if i < j {
        assert PointAt(pts, b, i, k);
      } else {
        assert (pts + column)[8 * j + k] == column[k];
      }
    }
  }

  /** `table_points`: every entry, column by column. */
  method TablePoints(b: Point) returns (pts: seq<Point>)
    requires GroupFacts() && OnCurve(b)
    ensures |pts| == 112 && forall j, k :: 0 <= j < 14 && 0 <= k < 8 ==> PointAt(pts, b, j, k)
  {
    pts := [];
    var base := b;
    DoubleIsTwice(b);
    for j := 0 to 14
      invariant |pts| == 8 * j && base == SMul(Pow(16, 8 * j), b)
      invariant forall i, k :: 0 <= i < j && 0 <= k < 8 ==> PointAt(pts, b, i, k)
    {
      ghost var n := Pow(16, 8 * j);
      var column := Column(base, n, b);
      ColumnAppended(pts, column, b, j);
      pts := pts + column;
      ColumnPower(j);
      base := Spread(base, n, b);
    }
  }

  // ---------------------------------------------------------------- balanced limbs

  /** The digits of n moved into [-2^27, 2^27), least significant first; the carry comes out. */
  method BalanceDigits(n: nat) returns (u: seq<int>, c: int)
    requires n < P
    ensures |u| == 16 && forall i :: 0 <= i < 16 ==> -K.HALF <= u[i] < K.HALF
    ensures (c == 0 || c == 1) && K.FeVal(u) + c * Pow(K.R, 16) == n
  {
    var digits := ToDigits(K.R, n, 16);
    K.RadixPowers();
    PrimeShape();
    ToDigitsValue(K.R, n, 16);
    u, c := [], 0;
    for i := 0 to 16
      invariant |u| == i && forall k :: 0 <= k < i ==> -K.HALF <= u[k] < K.HALF
      invariant (c == 0 || c == 1) && Val(K.R, u) + c * Pow(K.R, i) == Val(K.R, digits[..i])
    {
      var x := digits[i] + c;
      var q := (x + K.HALF) / K.R;
      ValPrefix(K.R, digits, i);
      FloorStep(K.R, u, digits[i], c, q, x - q * K.R);
      u := u + [x - q * K.R];
      c := q;
    }
    assert digits[..16] == digits;
  }

  lemma ValBump(u: seq<int>, i: nat, d: int)
    requires i < |u|
    ensures Val(K.R, u[i := u[i] + d]) == Val(K.R, u) + d * Pow(K.R, i)
  {
    ValUpdate(K.R, u, i, u[i] + d);
    assert u[i] + d - u[i] == d;
  }

  /** One limb carried into the next keeps the value. */
  lemma CarryKeepsValue(u: seq<int>, i: nat, c: int, v: seq<int>)
    requires i + 1 < |u| && v == u[i := u[i] - c * K.R][i + 1 := u[i + 1] + c]
    ensures Val(K.R, v) == Val(K.R, u)
  {
    var d := -(c * K.R);
    ValBump(u, i, d);
    ValBump(u[i := u[i] + d], i + 1, c);
    CarryWeight(c, Pow(K.R, i));
    Substitute(c, Pow(K.R, i + 1), K.R * Pow(K.R, i));
  }

  lemma CarryWeight(c: int, w: int)
    ensures (-(c * K.R)) * w + c * (K.R * w) == 0
  {
  }

  method CarryOnce(u: seq<int>, i: nat) returns (v: seq<int>, c: int)
    requires i + 1 < |u| && -K.HALF <= u[i] <= K.HALF
    ensures (c == 0 || c == 1) && v == u[i := u[i] - c * K.R][i + 1 := u[i + 1] + c]
    ensures -K.HALF <= v[i] < K.HALF && Val(K.R, v) == Val(K.R, u)
  {
    c := (u[i] + K.HALF) / K.R;
    v := u[i := u[i] - c * K.R];
    v := v[i + 1 := u[i + 1] + c];
    CarryKeepsValue(u, i, c, v);
  }

  lemma FoldTop(u: seq<int>, c: int, v: seq<int>, n: int)
    requires |u| == 16 && K.FeVal(u) + c * Pow(K.R, 16) == n && v == u[0 := u[0] + c][8 := u[8] + c]
    ensures Eq(K.FeVal(v), n)
  {
    ValUpdate(K.R, u, 0, u[0] + c);
    ValUpdate(K.R, u[0 := u[0] + c], 8, u[8] + c);
    K.RadixPowers();
    PrimeValue();
    assert c * Pow(K.R, 16) == c * (PHI * PHI);
    CongIntro(K.FeVal(v), n, P, -c);
  }

  /** `balanced_limbs`: tight limbs of n, so its own assertions never fail. */
  method BalancedLimbs(n: nat) returns (v: seq<int>)
    requires n < P
    ensures K.Tight(v) && Eq(K.FeVal(v), n)
  {
    var u, c := BalanceDigits(n);
    v := u[0 := u[0] + c];
    v := v[8 := v[8] + c];
    FoldTop(u, c, v, n);
    var d;
    v, d := CarryOnce(v, 0);
    v, d := CarryOnce(v, 8);
  }

  // ---------------------------------------------------------------- the table

  lemma EntryMeans(p: Point, x: int, y: int, dt: int)
    requires OnCurve(p) && Eq(x, p.x) && Eq(y, p.y) && Eq(dt, (D * p.x * p.y) % P)
    ensures Cached(x, y, 1, dt, p)
  {
    CongMod(D * p.x * p.y, P);
    CongTrans(dt, (D * p.x * p.y) % P, D * p.x * p.y, P);
    OneNotZero();
    EntryCoordinates(p.x, p.y);
  }

  lemma EntryCoordinates(x: int, y: int)
    ensures x * 1 == x && y * 1 == y && D * x * y * 1 == D * x * y
  {
  }

  /** The 48 limbs of one entry. */
  method TableEntry(p: Point) returns (e: seq<int>)
    requires OnCurve(p)
    ensures |e| == 48 && EntryAt(e, 0, p)
  {
    CurvePoint(p);
    var x := BalancedLimbs(p.x);
    var y := BalancedLimbs(p.y);
    CongMod(D * p.x * p.y, P);
    var t := BalancedLimbs((D * p.x * p.y) % P);
    e := x + y + t;
    assert e[0..16] == x && e[16..32] == y && e[32..48] == t;
    EntryMeans(p, K.FeVal(x), K.FeVal(y), K.FeVal(t));
  }

  lemma SliceParts(s: seq<int>, o: nat, e: seq<int>)
    requires o + 48 <= |s| && e == s[o..o + 48]
    ensures s[o..o + 16] == e[..16] && s[o + 16..o + 32] == e[16..32] && s[o + 32..o + 48] == e[32..48]
  {
    var x, y, t := e[..16], e[16..32], e[32..48];
    assert forall k :: 0 <= k < 16 ==> x[k] == s[o + k];
    assert forall k :: 0 <= k < 16 ==> y[k] == s[o + 16 + k];
    assert forall k :: 0 <= k < 16 ==> t[k] == s[o + 32 + k];
  }

  lemma EntryMoves(s: seq<int>, o: nat, tbl: seq<int>, q: nat, p: Point)
    requires EntryAt(s, o, p) && q + 48 <= |tbl| && tbl[q..q + 48] == s[o..o + 48]
    ensures EntryAt(tbl, q, p)
  {
    SliceParts(s, o, s[o..o + 48]);
    SliceParts(tbl, q, tbl[q..q + 48]);
  }

  ghost predicate Written(tbl: seq<int>, pts: seq<Point>, i: nat) {
    i < |pts| && EntryAt(tbl, 48 * i, pts[i])
  }

  lemma EntryAppended(tbl: seq<int>, e: seq<int>, pts: seq<Point>, i: nat)
    requires i < |pts| && |tbl| == 48 * i && |e| == 48 && EntryAt(e, 0, pts[i])
    requires forall k :: 0 <= k < i ==> Written(tbl, pts, k)
    ensures forall k :: 0 <= k < i + 1 ==> Written(tbl + e, pts, k)
  {
    forall k | 0 <= k < i + 1 ensures Written(tbl + e, pts, k) {
      if k < i {
        assert Written(tbl, pts, k);
        assert (tbl + e)[48 * k..48 * k + 48] == tbl[48 * k..48 * k + 48];
        EntryMoves(tbl, 48 * k, tbl + e, 48 * k, pts[k]);
      } else {
        assert (tbl + e)[48 * i..48 * i + 48] == e[0..48];
        EntryMoves(e, 0, tbl + e, 48 * i, pts[i]);
      }
    }
  }

  lemma PointsOnCurve(pts: seq<Point>, b: Point, i: nat)
    requires GroupFacts() && OnCurve(b) && |pts| == 112 && i < 112
    requires forall j, k :: 0 <= j < 14 && 0 <= k < 8 ==> PointAt(pts, b, j, k)
    ensures OnCurve(pts[i])
  {
    assert PointAt(pts, b, i / 8, i % 8);
    SMulOnCurve((i % 8 + 1) * Pow(16, 8 * (i / 8)), b);
  }

  lemma TableComplete(tbl: seq<int>, pts: seq<Point>, b: Point)
    requires |pts| == 112 && |tbl| == 5376
    requires forall j, k :: 0 <= j < 14 && 0 <= k < 8 ==> PointAt(pts, b, j, k)
    requires forall i :: 0 <= i < 112 ==> Written(tbl, pts, i)
    ensures BaseTable(tbl, b)
  {
    forall j, k | 0 <= j < 14 && 0 <= k < 8 ensures BaseEntry(tbl, b, j, k) {
      assert PointAt(pts, b, j, k);
      assert Written(tbl, pts, 8 * j + k);
    }
  }

  /** The generated table is the table the comb assumes. */
  method GenerateTable(b: Point) returns (tbl: seq<int>)
    requires GroupFacts() && OnCurve(b)
    ensures BaseTable(tbl, b)
  {
    var pts := TablePoints(b);
    tbl := [];
    for i := 0 to 112
      invariant |tbl| == 48 * i && forall k :: 0 <= k < i ==> Written(tbl, pts, k)
    {
      PointsOnCurve(pts, b, i);
      var e := TableEntry(pts[i]);
      EntryAppended(tbl, e, pts, i);
      tbl := tbl + e;
    }
    TableComplete(tbl, pts, b);
  }

  // ---------------------------------------------------------------- the C table

  lemma PrecompMeans(p: Point)
    requires OnCurve(p)
    ensures NativeGe.Precomp(p.x, p.y, (D * p.x * p.y) % P).Is(p)
  {
    CongRefl(p.x, P);
    CongRefl(p.y, P);
    CongRefl((D * p.x * p.y) % P, P);
    EntryMeans(p, p.x, p.y, (D * p.x * p.y) % P);
  }

  /** One column of canonical (x, y, d x y) triples. */
  method NativeColumn(base: Point, ghost n: int, ghost b: Point) returns (table: seq<NativeGe.Precomp>)
    requires GroupFacts() && OnCurve(b) && base == SMul(n, b)
    ensures NativeGe.PrecompTable(table, n, b)
  {
    var pts := Column(base, n, b);
    table := [];
    for k := 0 to 8
      invariant |table| == k && forall i :: 0 <= i < k ==> NativeGe.PrecompAt(table, i, n, b)
    {
      var p := pts[k];
      SMulOnCurve((k + 1) * n, b);
      PrecompMeans(p);
      ghost var before := table;
      table := table + [NativeGe.Precomp(p.x, p.y, (D * p.x * p.y) % P)];
      forall i | 0 <= i < k + 1 ensures NativeGe.PrecompAt(table, i, n, b) {
        assert i < k ==> NativeGe.PrecompAt(before, i, n, b);
      }
    }
  }

  /** The generated C table is the table the C comb assumes. */
  method GenerateNativeTables(b: Point) returns (tables: seq<seq<NativeGe.Precomp>>)
    requires GroupFacts() && OnCurve(b)
    ensures NativeGe.BaseTables(tables, b)
  {
    tables := [];
    var base := b;
    DoubleIsTwice(b);
    for j := 0 to 14
      invariant |tables| == j && base == SMul(Pow(16, 8 * j), b)
      invariant forall i :: 0 <= i < j ==> NativeGe.PrecompTable(tables[i], Pow(16, 8 * i), b)
    {
      var column := NativeColumn(base, Pow(16, 8 * j), b);
      tables := tables + [column];
      ColumnPower(j);
      base := Spread(base, Pow(16, 8 * j), b);
    }
  }
}
