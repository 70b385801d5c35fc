/** Digit times a point, by masked selection from a table of the multiples 1 to 8. */
module GeSelect {
  import opened Arith
  import opened Congruence
  import opened Radix
  import opened Prime448
  import opened Field
  import opened FieldOps
  import opened Curve
  import opened Group
  import opened Extended
  import opened Ge448
  import opened TableSelect
  import opened Words
  import K = Fe448Kernels

  /** 48 limbs at o hold x, y and D x y of p. */
  ghost predicate EntryAt(tbl: seq<int>, o: nat, p: Point) {
    && o + 48 <= |tbl|
    && K.Tight(tbl[o..o + 16]) && K.Tight(tbl[o + 16..o + 32]) && K.Tight(tbl[o + 32..o + 48])
    && Cached(K.FeVal(tbl[o..o + 16]), K.FeVal(tbl[o + 16..o + 32]), 1, K.FeVal(tbl[o + 32..o + 48]), p)
  }

  /** 64 limbs at o hold X, Y, Z and D T of p. */
  ghost predicate CachedAt(tbl: seq<int>, o: nat, p: Point) {
    && o + 64 <= |tbl|
    && K.Tight(tbl[o..o + 16]) && K.Tight(tbl[o + 16..o + 32])
    && K.Tight(tbl[o + 32..o + 48]) && K.Tight(tbl[o + 48..o + 64])
    && Cached(K.FeVal(tbl[o..o + 16]), K.FeVal(tbl[o + 16..o + 32]),
              K.FeVal(tbl[o + 32..o + 48]), K.FeVal(tbl[o + 48..o + 64]), p)
  }

  ghost predicate BaseEntry(tbl: seq<int>, b: Point, j: nat, k: nat) {
    EntryAt(tbl, 384 * j + 48 * k, SMul((k + 1) * Pow(16, 8 * j), b))
  }

  /** The fixed-base table: (k + 1) 2^(32 j) B for 14 columns j and 8 multiples. */
  ghost predicate BaseTable(tbl: seq<int>, b: Point) {
    |tbl| == 5376 && forall j, k :: 0 <= j < 14 && 0 <= k < 8 ==> BaseEntry(tbl, b, j, k)
  }

  ghost predicate MultipleEntry(tbl: seq<int>, p: Point, k: nat) {
    CachedAt(tbl, 64 * k, SMul(k + 1, p))
  }

  /** The variable-base table: P, 2P, ..., 8P in cached form. */
  ghost predicate MultiplesTable(tbl: seq<int>, p: Point) {
    |tbl| == 512 && forall k :: 0 <= k < 8 ==> MultipleEntry(tbl, p, k)
  }

  /** Digit 0 selects the identity: the lowest limb becomes 1. */
  method OrZero(y: seq<int>, magnitude: int) returns (r: seq<int>)
    requires |y| == 16 && 0 <= magnitude <= 8 && (magnitude == 0 ==> y[0] == 0)
    ensures r == if magnitude == 0 then y[0 := 1] else y
  {
    WordPowers();
    LorStep(y[0], if magnitude == 0 then 1 else 0);
    r := y[0 := Lor(y[0], EqualSmall(magnitude, 0))];
  }

  lemma ZeroOne(zeros: seq<int>)
    requires zeros == seq(16, _ => 0)
    ensures K.Tight(zeros) && K.FeVal(zeros) == 0 && K.Tight(zeros[0 := 1]) && K.FeVal(zeros[0 := 1]) == 1
  {
    ValZero(K.R, zeros);
    ValUpdate(K.R, zeros, 0, 1);
  }

  lemma IdentityCached()
    ensures Cached(0, 1, 1, 0, Identity)
  {
    IdentityOnCurve();
    OneNotZero();
    CongRefl(0, P);
    CongRefl(1, P);
  }

  lemma ConditionalNegation(x: int, y: int, z: int, t: int, u: int, v: int, a: Point, negative: int)
    requires Cached(x, y, z, t, a) && (negative == 0 || negative == 1)
    requires u == (if negative == 1 then -x else x) && v == (if negative == 1 then -t else t)
    ensures Cached(u, y, z, v, if negative == 1 then Curve.Neg(a) else a)
  {
    if negative == 1 {
      NegatedCached(x, y, z, t, a);
    }
  }

  /** The three picked coordinates stand for magnitude times 2^(32 j) B. */
  lemma PickedEntry(tbl: seq<int>, b: Point, j: nat, magnitude: int, x: seq<int>, y: seq<int>, t: seq<int>)
    requires BaseTable(tbl, b) && j < 14 && 0 <= magnitude <= 8
    requires x == Picked(tbl, 384 * j, 48, magnitude) && t == Picked(tbl, 384 * j + 32, 48, magnitude)
    requires y == (if magnitude == 0 then seq(16, _ => 0)[0 := 1] else Picked(tbl, 384 * j + 16, 48, magnitude))
    ensures K.Tight(x) && K.Tight(y) && K.Tight(t)
    ensures Cached(K.FeVal(x), K.FeVal(y), 1, K.FeVal(t), SMul(magnitude * Pow(16, 8 * j), b))
  {
    if magnitude == 0 {
      ZeroOne(x);
      IdentityCached();
    } else {
      assert BaseEntry(tbl, b, j, magnitude - 1);
    }
  }

  /** r <- digit 2^(32 j) B, from the affine entries of the fixed-base table. */
  method SelectBase(r: Ge, tbl: seq<int>, j: nat, digit: int, ghost b: Point)
    requires GroupFacts() && OnCurve(b) && BaseTable(tbl, b) && j < 14 && -8 <= digit <= 8
    modifies r
    ensures r.IsEntry(SMul(digit * Pow(16, 8 * j), b))
  {
    var negative, magnitude := SignMagnitude(digit);
    var x := PickLimbs(tbl, 384 * j, 48, magnitude);
    var y := PickLimbs(tbl, 384 * j + 16, 48, magnitude);
    var t := PickLimbs(tbl, 384 * j + 32, 48, magnitude);
    y := OrZero(y, magnitude);
    PickedEntry(tbl, b, j, magnitude, x, y, t);
    r.x, r.y, r.t := x, y, t;
    r.CNeg(negative);
    ghost var n := magnitude * Pow(16, 8 * j);
    ConditionalNegation(V(x), V(y), 1, V(t), V(r.x), V(r.t), SMul(n, b), negative);
    SMulNeg(n, b);
    NegateProduct(magnitude, Pow(16, 8 * j));
  }

  lemma PickedMultiple(tbl: seq<int>, p: Point, magnitude: int, x: seq<int>, y: seq<int>, z: seq<int>, t: seq<int>)
    requires MultiplesTable(tbl, p) && 0 <= magnitude <= 8
    requires x == Picked(tbl, 0, 64, magnitude) && t == Picked(tbl, 48, 64, magnitude)
    requires y == (if magnitude == 0 then seq(16, _ => 0)[0 := 1] else Picked(tbl, 16, 64, magnitude))
    requires z == (if magnitude == 0 then seq(16, _ => 0)[0 := 1] else Picked(tbl, 32, 64, magnitude))
    ensures K.Tight(x) && K.Tight(y) && K.Tight(z) && K.Tight(t)
    ensures Cached(K.FeVal(x), K.FeVal(y), K.FeVal(z), K.FeVal(t), SMul(magnitude, p))
  {
    if magnitude == 0 {
      ZeroOne(x);
      IdentityCached();
    } else {
      assert MultipleEntry(tbl, p, magnitude - 1);
    }
  }

  /** r <- digit P, from the cached multiples. */
  method SelectCached(r: Ge, tbl: seq<int>, digit: int, ghost p: Point)
    requires GroupFacts() && OnCurve(p) && MultiplesTable(tbl, p) && -8 <= digit <= 8
    modifies r
    ensures r.IsCached(SMul(digit, p))
  {
    var negative, magnitude := SignMagnitude(digit);
    var x := PickLimbs(tbl, 0, 64, magnitude);
    var y := PickLimbs(tbl, 16, 64, magnitude);
    var z := PickLimbs(tbl, 32, 64, magnitude);
    var t := PickLimbs(tbl, 48, 64, magnitude);
    y := OrZero(y, magnitude);
    z := OrZero(z, magnitude);
    PickedMultiple(tbl, p, magnitude, x, y, z, t);
    r.x, r.y, r.z, r.t := x, y, z, t;
    r.CNeg(negative);
    ConditionalNegation(V(x), V(y), V(z), V(t), V(r.x), V(r.t), SMul(magnitude, p), negative);
    SMulNeg(magnitude, p);
  }
}
