/** The programs `build_product` writes for `mul` and `sq`: accepted by the analysis, tight, and
    equal to the product modulo P. */
module KernelProduct {
  import opened Wrappers
  import opened Congruence
  import opened Radix
  import opened Prime448
  import opened KernelProgram
  import opened KernelNames
  import opened KernelExec
  import opened KernelBuild
  import opened KernelChain
  import opened KernelColumns
  import opened KernelFamilies
  import A = KernelAnalysis
  import F = Fe448Kernels

  const T: nat := A.TIGHT

  // ---------------------------------------------------------------- names of a kernel

  lemma DoublesNumbered(x: seq<string>, q: string, lo: nat)
    requires Numbered(x, q, lo)
    ensures Numbered(Doubles(x), "d" + q, lo)
  {
    forall i | 0 <= i < |x| ensures Doubles(x)[i] == Id("d" + q, lo + i) {
      LongerPrefix("d", q, lo + i);
    }
  }

  lemma CleanNames(p: string, x: seq<string>, q: string, lo: nat, y: seq<string>, r: string, l: nat)
    requires Letters(p) && Numbered(x, q, lo) && Numbered(y, r, l)
    requires p != q && p != r && p != "d" + q && "d" + q != q && "d" + q != r
    ensures Clean(p, x, y)
  {
    var f := Family(p, 15);
    DoublesNumbered(x, q, lo);
    assert Numbered(f, p, 0);
    NumberedApart(f, p, 0, x, q, lo);
    NumberedApart(f, p, 0, y, r, l);
    NumberedApart(f, p, 0, Doubles(x), "d" + q, lo);
    NumberedApart(Doubles(x), "d" + q, lo, x, q, lo);
    NumberedApart(Doubles(x), "d" + q, lo, y, r, l);
    NumberedDifferent(Doubles(x), "d" + q, lo);
    NumberedDifferent(f, p, 0);
  }

  lemma NotTouched(p: string, x: seq<string>, q: string, lo: nat, y: seq<string>, r: string, l: nat, i: nat)
    requires Letters(p) && Numbered(x, q, lo) && Numbered(y, r, l) && r != p && r != "d" + q && i < |y|
    ensures !Touched(p, x, y[i])
  {
    var f := Family(p, 15);
    assert Numbered(f, p, 0);
    DoublesNumbered(x, q, lo);
    NumberedApart(f, p, 0, y, r, l);
    NumberedApart(Doubles(x), "d" + q, lo, y, r, l);
  }

  // ---------------------------------------------------------------- families through a stage

  /** The columns of a stage. */
  predicate Coefficients(cols: seq<int>, x: seq<int>, y: seq<int>) {
    |cols| == 15 && forall k :: 0 <= k < 15 ==> cols[k] == F.Conv(x, y, k)
  }

  ghost predicate Staged(s: Full, t: Full, p: string, x: seq<string>) {
    t.peak < LIMIT && forall v :: !Touched(p, x, v) ==> Kept(s, t, v)
  }

  /** One call of `product_columns`: the columns hold the coefficients, everything else is kept. */
  lemma ColumnStage(s: Full, p: string, x: seq<string>, y: seq<string>, square: bool, b: nat, q: nat, u: seq<int>, v: seq<int>)
    returns (t: Full, cols: seq<int>)
    requires |x| == |y| == 8 && (square ==> x == y) && Clean(p, x, y) && s.peak < LIMIT
    requires Valued(s, x, b, u) && Valued(s, y, b, v) && b <= q && b * b <= q && 8 * q < LIMIT
    ensures Exec(s, Columns(p, x, y, square)) == Some(t) && Staged(s, t, p, x)
    ensures Coefficients(cols, u, v) && Valued(t, Family(p, 15), 8 * q, cols)
  {
    var n := |x| + |y| - 1;
    t := ColumnsSound(s, p, x, y, square, n, b, q);
    cols := Read(t.env, Family(p, 15));
    forall k | 0 <= k < 15 ensures CappedAt(t.bounds, Family(p, 15)[k], 8 * q) && cols[k] == F.Conv(u, v, k) {
      assert ColumnMade(s, t, p, x, y, k, q) && Family(p, 15)[k] == Id(p, k);
    }
  }

  lemma StageKeeps(s: Full, t: Full, p: string, x: seq<string>, q: string, lo: nat, y: seq<string>, r: string, l: nat, b: nat, vals: seq<int>)
    requires Staged(s, t, p, x) && Valued(s, y, b, vals)
    requires Letters(p) && Numbered(x, q, lo) && Numbered(y, r, l) && r != p && r != "d" + q
    ensures Valued(t, y, b, vals)
  {
    forall i | 0 <= i < |y| ensures Kept(s, t, y[i]) {
      NotTouched(p, x, q, lo, y, r, l, i);
    }
    ValuedKept(s, t, y, b, vals);
  }

  // ---------------------------------------------------------------- sums of halves

  function HalfSums(a: seq<int>): (r: seq<int>)
    requires |a| == 16
    ensures |r| == 8
  {
    seq(8, i requires 0 <= i < 8 => a[i] + a[i + 8])
  }

  lemma SumFits(s: Full, p: string, a: seq<string>, i: nat)
    requires |a| == 16 && i < 8 && s.peak < LIMIT && NamesCapped(s.bounds, a, T)
    ensures Fits(s, SumLines(p, a)[i], 2 * T)
    ensures Names(SumLines(p, a)[i].rhs) == {a[i], a[i + 8]}
    ensures Eval(SumLines(p, a)[i].rhs, s.env) == Read(s.env, a)[i] + Read(s.env, a)[i + 8]
  {
    var e := SumLines(p, a)[i].rhs;
    assert CappedAt(s.bounds, a[i], T) && CappedAt(s.bounds, a[i + 8], T);
    assert e == Plus(Name(a[i]), Name(a[i + 8]));
    assert Bound(e.a, s.bounds) == Range(s.bounds[a[i]], s.bounds[a[i]]);
    assert Bound(e.b, s.bounds) == Range(s.bounds[a[i + 8]], s.bounds[a[i + 8]]);
    assert Eval(e.a, s.env) == s.env[a[i]] && Eval(e.b, s.env) == s.env[a[i + 8]];
  }

  /** The sums a_i + a_(i+8). */
  lemma SumStage(s: Full, p: string, a: seq<string>, q: string, vals: seq<int>) returns (t: Full)
    requires |a| == 16 && s.peak < LIMIT && Valued(s, a, T, vals) && Numbered(a, q, 0) && Letters(p) && p != q
    ensures Exec(s, SumLines(p, a)) == Some(t) && t.peak < LIMIT && Valued(t, Family(p, 8), 2 * T, HalfSums(vals))
    ensures forall v :: v !in Family(p, 8) ==> Kept(s, t, v)
  {
    var ls := SumLines(p, a);
    assert Numbered(Family(p, 8), p, 0);
    NumberedApart(Family(p, 8), p, 0, a, q, 0);
    NumberedDifferent(Family(p, 8), p, 0);
    forall j, k | 0 <= j < 8 && 0 <= k < 8 ensures ApartAt(ls, j, k) {
      SumFits(s, p, a, k);
      assert Family(p, 8)[j] == ls[j].name && Family(p, 8)[k] == ls[k].name;
    }
    forall k | 0 <= k < 8 ensures Fits(s, ls[k], 2 * T) {
      SumFits(s, p, a, k);
    }
    t := Segment(s, ls, 2 * T);
    SumsHold(s, t, p, a, vals);
    forall v | v !in Family(p, 8) ensures Kept(s, t, v) {
      forall k | 0 <= k < |ls| ensures ls[k].name != v {
        assert ls[k].name == Family(p, 8)[k];
      }
    }
  }

  lemma SumsHold(s: Full, t: Full, p: string, a: seq<string>, vals: seq<int>)
    requires |a| == 16 && s.peak < LIMIT && Valued(s, a, T, vals) && Segmented(s, t, SumLines(p, a), 2 * T)
    ensures Valued(t, Family(p, 8), 2 * T, HalfSums(vals))
  {
    var ls := SumLines(p, a);
    forall i | 0 <= i < 8
      ensures CappedAt(t.bounds, Family(p, 8)[i], 2 * T) && ValueOf(t.env, Family(p, 8)[i]) == HalfSums(vals)[i]
    {
      SumFits(s, p, a, i);
      assert Made(s, t, ls, i, 2 * T) && ls[i].name == Family(p, 8)[i];
    }
  }

  // ---------------------------------------------------------------- result columns

  /** T * T */
  const SQUARE: nat := 0x40_0002_0000_0400

  lemma SquareOfTight()
    ensures T <= SQUARE && T * T == SQUARE && 2 * T <= 4 * SQUARE && (2 * T) * (2 * T) == 4 * SQUARE
    ensures 8 * (4 * SQUARE) < LIMIT && 80 * SQUARE <= COLUMN
  {
  }

  predicate Columns3(s: Full, l: seq<int>, h: seq<int>, m: seq<int>) {
    && |l| == |h| == |m| == 15 && Valued(s, Family("l", 15), 8 * SQUARE, l)
    && Valued(s, Family("h", 15), 8 * SQUARE, h) && Valued(s, Family("s", 15), 8 * (4 * SQUARE), m)
  }

  predicate ColumnName(v: string) {
    v in Family("l", 15) || v in Family("h", 15) || v in Family("s", 15)
  }

  predicate Reads(s: Full, v: string, b: nat, x: int) {
    CappedAt(s.bounds, v, b) && ValueOf(s.env, v) == x && ColumnName(v)
  }

  lemma ColumnRead(s: Full, l: seq<int>, h: seq<int>, m: seq<int>, k: nat)
    requires Columns3(s, l, h, m) && k < 15
    ensures Reads(s, Id("l", k), 8 * SQUARE, l[k]) && Reads(s, Id("h", k), 8 * SQUARE, h[k])
    ensures Reads(s, Id("s", k), 8 * (4 * SQUARE), m[k])
  {
    assert Family("l", 15)[k] == Id("l", k) && Family("h", 15)[k] == Id("h", k) && Family("s", 15)[k] == Id("s", k);
    assert l[k] == Read(s.env, Family("l", 15))[k] && h[k] == Read(s.env, Family("h", 15))[k];
    assert m[k] == Read(s.env, Family("s", 15))[k];
    assert CappedAt(s.bounds, Family("l", 15)[k], 8 * SQUARE) && CappedAt(s.bounds, Family("h", 15)[k], 8 * SQUARE);
    assert CappedAt(s.bounds, Family("s", 15)[k], 8 * (4 * SQUARE));
  }

  /** An expression over column names: its value, and a bound for it and its parts. */
  ghost predicate Costs(s: Full, e: Expr, b: nat, x: int) {
    && Names(e) <= s.bounds.Keys && (forall v :: v in Names(e) ==> ColumnName(v))
    && Eval(e, s.env) == x && Bound(e, s.bounds).value <= b && Bound(e, s.bounds).peak <= b
  }

  ghost predicate CostsSum(s: Full, terms: seq<Expr>, b: nat, x: int) {
    && NamesOf(terms) <= s.bounds.Keys && (forall v :: v in NamesOf(terms) ==> ColumnName(v))
    && EvalSum(terms, s.env) == x && BoundSum(terms, s.bounds).value <= b && BoundSum(terms, s.bounds).peak <= b
  }

  lemma NameCosts(s: Full, v: string, b: nat, x: int)
    requires Reads(s, v, b, x)
    ensures Costs(s, Name(v), b, x)
  {
  }

  lemma SnocCosts(s: Full, terms: seq<Expr>, b: nat, x: int, v: string, c: nat, y: int)
    requires CostsSum(s, terms, b, x) && Reads(s, v, c, y)
    ensures CostsSum(s, terms + [Name(v)], b + c, x + y)
  {
    NameCosts(s, v, c, y);
    assert (terms + [Name(v)])[..|terms|] == terms;
  }

  lemma OneCosts(s: Full, v: string, b: nat, x: int)
    requires Reads(s, v, b, x)
    ensures CostsSum(s, [Name(v)], b, x)
  {
    assert NamesOf([]) == {} && EvalSum([], s.env) == 0 && BoundSum([], s.bounds) == Range(0, 0);
    SnocCosts(s, [], 0, 0, v, b, x);
    assert [] + [Name(v)] == [Name(v)];
  }

  lemma MinusCosts(s: Full, terms: seq<Expr>, b: nat, x: int, v: string, c: nat, y: int)
    requires CostsSum(s, terms, b, x) && Reads(s, v, c, y)
    ensures Costs(s, Minus(Sum(terms), Name(v)), b + c, x - y)
  {
    var e := Minus(Sum(terms), Name(v));
    NameCosts(s, v, c, y);
    assert Names(e.a) == NamesOf(terms) && Eval(e.a, s.env) == x && Bound(e.a, s.bounds) == BoundSum(terms, s.bounds);
  }

  lemma ThreeCosts(s: Full, u: string, a: nat, x: int, v: string, b: nat, y: int, w: string, c: nat, z: int)
    requires Reads(s, u, a, x) && Reads(s, v, b, y) && Reads(s, w, c, z)
    ensures CostsSum(s, [Name(u), Name(v), Name(w)], a + b + c, x + y + z)
  {
    OneCosts(s, u, a, x);
    SnocCosts(s, [Name(u)], a, x, v, b, y);
    assert [Name(u)] + [Name(v)] == [Name(u), Name(v)];
    SnocCosts(s, [Name(u), Name(v)], a + b, x + y, w, c, z);
    assert [Name(u), Name(v)] + [Name(w)] == [Name(u), Name(v), Name(w)];
  }

  lemma LowCosts(s: Full, l: seq<int>, h: seq<int>, m: seq<int>, j: nat)
    requires Columns3(s, l, h, m) && j < 8
    ensures Costs(s, LowColumn(j), 56 * SQUARE, F.LowAt(l, h, m, j))
  {
    ColumnRead(s, l, h, m, j);
    if j < 7 {
      ColumnRead(s, l, h, m, j + 8);
      ThreeCosts(s, Id("l", j), 8 * SQUARE, l[j], Id("h", j), 8 * SQUARE, h[j], Id("s", j + 8), 8 * (4 * SQUARE), m[j + 8]);
      MinusCosts(s, [Name(Id("l", j)), Name(Id("h", j)), Name(Id("s", j + 8))], 48 * SQUARE, l[j] + h[j] + m[j + 8],
                 Id("l", j + 8), 8 * SQUARE, l[j + 8]);
    } else {
      OneCosts(s, Id("l", j), 8 * SQUARE, l[j]);
      SnocCosts(s, [Name(Id("l", j))], 8 * SQUARE, l[j], Id("h", j), 8 * SQUARE, h[j]);
      assert [Name(Id("l", j))] + [Name(Id("h", j))] == [Name(Id("l", j)), Name(Id("h", j))];
    }
  }

  lemma HighCosts(s: Full, l: seq<int>, h: seq<int>, m: seq<int>, j: nat)
    requires Columns3(s, l, h, m) && j < 8
    ensures Costs(s, HighColumn(j), 80 * SQUARE, F.HighAt(l, h, m, j))
  {
    ColumnRead(s, l, h, m, j);
    if j < 7 {
      ColumnRead(s, l, h, m, j + 8);
      ThreeCosts(s, Id("s", j), 8 * (4 * SQUARE), m[j], Id("h", j + 8), 8 * SQUARE, h[j + 8], Id("s", j + 8), 8 * (4 * SQUARE), m[j + 8]);
      MinusCosts(s, [Name(Id("s", j)), Name(Id("h", j + 8)), Name(Id("s", j + 8))], 72 * SQUARE, m[j] + h[j + 8] + m[j + 8],
                 Id("l", j), 8 * SQUARE, l[j]);
    } else {
      OneCosts(s, Id("s", j), 8 * (4 * SQUARE), m[j]);
      MinusCosts(s, [Name(Id("s", j))], 32 * SQUARE, m[j], Id("l", j), 8 * SQUARE, l[j]);
    }
  }

  function ResultAt(l: seq<int>, h: seq<int>, m: seq<int>, i: nat): int
    requires |l| == |h| == |m| == 15 && i < 16
  {
    if i < 8 then F.LowAt(l, h, m, i) else F.HighAt(l, h, m, i - 8)
  }

  lemma ResultCosts(s: Full, l: seq<int>, h: seq<int>, m: seq<int>, i: nat)
    requires Columns3(s, l, h, m) && i < 16
    ensures Costs(s, ResultLines()[i].rhs, COLUMN, ResultAt(l, h, m, i))
    ensures Fits(s, ResultLines()[i], COLUMN)
  {
    SquareOfTight();
    if i < 8 {
      LowCosts(s, l, h, m, i);
    } else {
      HighCosts(s, l, h, m, i - 8);
    }
  }

  lemma ResultsIndependent(s: Full, l: seq<int>, h: seq<int>, m: seq<int>)
    requires Columns3(s, l, h, m)
    ensures Independent(ResultLines())
  {
    var ls := ResultLines();
    FamilyDifferent("r", 16);
    FamiliesApart("r", 16, "l", 15);
    FamiliesApart("r", 16, "h", 15);
    FamiliesApart("r", 16, "s", 15);
    forall j, k | 0 <= j < 16 && 0 <= k < 16 ensures ApartAt(ls, j, k) {
      ResultCosts(s, l, h, m, k);
      assert ls[j].name == Family("r", 16)[j] && ls[k].name == Family("r", 16)[k];
      assert !ColumnName(ls[j].name);
    }
  }

  /** The sixteen result columns, ready for the carry chain. */
  lemma ResultStage(s: Full, l: seq<int>, h: seq<int>, m: seq<int>) returns (t: Full)
    requires Columns3(s, l, h, m) && s.peak < LIMIT
    ensures Exec(s, ResultLines()) == Some(t) && Chained(t, 0)
    ensures forall i :: 0 <= i < 16 ==> Limbs(t)[i] == ResultAt(l, h, m, i)
  {
    var ls := ResultLines();
    ResultsIndependent(s, l, h, m);
    forall k | 0 <= k < 16 ensures Fits(s, ls[k], COLUMN) {
      ResultCosts(s, l, h, m, k);
    }
    t := Segment(s, ls, COLUMN);
    forall i | 0 <= i < 16 ensures InChain(t, 0, i) && Limbs(t)[i] == ResultAt(l, h, m, i) {
      ResultCosts(s, l, h, m, i);
      assert Made(s, t, ls, i, COLUMN) && ls[i].name == Id("r", i) == Names16("r")[i];
    }
  }

  // ---------------------------------------------------------------- the whole program

  ghost predicate Operands16(s: Full, square: bool, x: seq<int>, y: seq<int>) {
    && |x| == |y| == 16 && s.peak < LIMIT
    && Valued(s, Names16("a"), T, x) && Valued(s, Names16(Other(square)), T, y)
  }

  /** The operands and the sums of their halves. */
  ghost predicate WithHalves(s: Full, square: bool, x: seq<int>, y: seq<int>) {
    && Operands16(s, square, x, y)
    && Valued(s, Family("aa", 8), 2 * T, HalfSums(x)) && Valued(s, Family(Other(square) + Other(square), 8), 2 * T, HalfSums(y))
  }

  lemma Spellings()
    ensures "a" + "a" == "aa" && "b" + "b" == "bb" && "d" + "a" == "da" && "d" + "aa" == "daa"
    ensures forall p :: p in {"a", "b", "aa", "bb", "l", "h", "s", "r", "da", "daa"} ==> Letters(p)
  {
  }

  lemma HalvesStage(s: Full, square: bool, x: seq<int>, y: seq<int>) returns (t: Full)
    requires Operands16(s, square, x, y)
    ensures Exec(s, HalfLines(square)) == Some(t) && WithHalves(t, square, x, y)
  {
    Spellings();
    FamilyNumbered("a", 16);
    var m := SumStage(s, "aa", Names16("a"), "a", x);
    FamilyKeeps(s, m, "aa", 8, "a", 16, T, x);
    FamilyKeeps(s, m, "aa", 8, Other(square), 16, T, y);
    if square {
      t := m;
      assert HalfLines(square) == SumLines("aa", Names16("a"));
      assert x == Read(s.env, Names16("a")) == y;
    } else {
      FamilyNumbered("b", 16);
      t := SumStage(m, "bb", Names16("b"), "b", y);
      FamilyKeeps(m, t, "bb", 8, "a", 16, T, x);
      FamilyKeeps(m, t, "bb", 8, "b", 16, T, y);
      FamilyKeeps(m, t, "bb", 8, "aa", 8, 2 * T, HalfSums(x));
      Sequel(s, SumLines("aa", Names16("a")), m, SumLines("bb", Names16("b")), t);
    }
  }

  lemma ValuedSlice(s: Full, names: seq<string>, b: nat, vals: seq<int>, lo: nat, hi: nat)
    requires Valued(s, names, b, vals) && lo <= hi <= |names|
    ensures Valued(s, names[lo..hi], b, vals[lo..hi])
  {
    forall i | 0 <= i < hi - lo ensures CappedAt(s.bounds, names[lo..hi][i], b) && ValueOf(s.env, names[lo..hi][i]) == vals[lo + i] {
      assert CappedAt(s.bounds, names[lo + i], b);
      assert vals[lo + i] == Read(s.env, names)[lo + i];
    }
    assert Read(s.env, names[lo..hi]) == vals[lo..hi];
  }

  /** Columns of half the limbs of the operands. */
  lemma SlicedStage(s: Full, p: string, square: bool, lo: nat, x: seq<int>, y: seq<int>) returns (t: Full, cols: seq<int>)
    requires Operands16(s, square, x, y) && lo + 8 <= 16 && (p == "l" || p == "h")
    ensures Exec(s, Columns(p, Names16("a")[lo..lo + 8], Names16(Other(square))[lo..lo + 8], square)) == Some(t)
    ensures Staged(s, t, p, Names16("a")[lo..lo + 8])
    ensures Coefficients(cols, x[lo..lo + 8], y[lo..lo + 8]) && Valued(t, Family(p, 15), 8 * SQUARE, cols)
  {
    Spellings();
    SquareOfTight();
    var a, b := Names16("a")[lo..lo + 8], Names16(Other(square))[lo..lo + 8];
    ValuedSlice(s, Names16("a"), T, x, lo, lo + 8);
    ValuedSlice(s, Names16(Other(square)), T, y, lo, lo + 8);
    CleanNames(p, a, "a", lo, b, Other(square), lo);
    t, cols := ColumnStage(s, p, a, b, square, T, SQUARE, x[lo..lo + 8], y[lo..lo + 8]);
  }

  /** A family of another name outlives such a stage. */
  lemma SliceKeeps(s: Full, t: Full, p: string, lo: nat, r: string, n: nat, b: nat, vals: seq<int>)
    requires lo + 8 <= 16 && Staged(s, t, p, Names16("a")[lo..lo + 8]) && (p == "l" || p == "h")
    requires r in {"a", "b", "aa", "bb", "l"} && r != p && n <= 100 && Valued(s, Family(r, n), b, vals)
    ensures Valued(t, Family(r, n), b, vals)
  {
    Spellings();
    StageKeeps(s, t, p, Names16("a")[lo..lo + 8], "a", lo, Family(r, n), r, 0, b, vals);
  }

  lemma HalvesOutlive(s: Full, t: Full, p: string, lo: nat, square: bool, x: seq<int>, y: seq<int>)
    requires lo + 8 <= 16 && Staged(s, t, p, Names16("a")[lo..lo + 8]) && (p == "l" || p == "h") && WithHalves(s, square, x, y)
    ensures WithHalves(t, square, x, y)
  {
    Spellings();
    SliceKeeps(s, t, p, lo, "a", 16, T, x);
    SliceKeeps(s, t, p, lo, Other(square), 16, T, y);
    SliceKeeps(s, t, p, lo, "aa", 8, 2 * T, HalfSums(x));
    SliceKeeps(s, t, p, lo, Other(square) + Other(square), 8, 2 * T, HalfSums(y));
  }

  lemma HalvesWritten<X>(s: seq<X>)
    requires |s| == 16
    ensures s[0..8] == s[..8] && s[8..16] == s[8..]
  {
  }

  lemma LowStage(s: Full, square: bool, x: seq<int>, y: seq<int>) returns (t: Full, l: seq<int>)
    requires WithHalves(s, square, x, y)
    ensures Exec(s, LowLines(square)) == Some(t) && WithHalves(t, square, x, y)
    ensures Coefficients(l, x[..8], y[..8]) && Valued(t, Family("l", 15), 8 * SQUARE, l)
  {
    t, l := SlicedStage(s, "l", square, 0, x, y);
    HalvesOutlive(s, t, "l", 0, square, x, y);
    HalvesWritten(x);
    HalvesWritten(y);
    HalvesWritten(Names16("a"));
    HalvesWritten(Names16(Other(square)));
  }

  lemma HighStage(s: Full, square: bool, x: seq<int>, y: seq<int>, l: seq<int>) returns (t: Full, h: seq<int>)
    requires WithHalves(s, square, x, y) && Valued(s, Family("l", 15), 8 * SQUARE, l)
    ensures Exec(s, HighLines(square)) == Some(t) && WithHalves(t, square, x, y)
    ensures Coefficients(h, x[8..], y[8..]) && Valued(t, Family("h", 15), 8 * SQUARE, h) && Valued(t, Family("l", 15), 8 * SQUARE, l)
  {
    t, h := SlicedStage(s, "h", square, 8, x, y);
    HalvesOutlive(s, t, "h", 8, square, x, y);
    SliceKeeps(s, t, "h", 8, "l", 15, 8 * SQUARE, l);
    HalvesWritten(x);
    HalvesWritten(y);
    HalvesWritten(Names16("a"));
    HalvesWritten(Names16(Other(square)));
  }

  lemma MiddleStage(s: Full, square: bool, x: seq<int>, y: seq<int>, l: seq<int>, h: seq<int>) returns (t: Full, m: seq<int>)
    requires WithHalves(s, square, x, y) && |l| == |h| == 15
    requires Valued(s, Family("l", 15), 8 * SQUARE, l) && Valued(s, Family("h", 15), 8 * SQUARE, h)
    ensures Exec(s, MiddleLines(square)) == Some(t) && t.peak < LIMIT
    ensures Coefficients(m, HalfSums(x), HalfSums(y)) && Columns3(t, l, h, m)
  {
    Spellings();
    SquareOfTight();
    var aa, bb := Family("aa", 8), Family(Other(square) + Other(square), 8);
    FamilyNumbered("aa", 8);
    FamilyNumbered(Other(square) + Other(square), 8);
    CleanNames("s", aa, "aa", 0, bb, Other(square) + Other(square), 0);
    t, m := ColumnStage(s, "s", aa, bb, square, 2 * T, 4 * SQUARE, HalfSums(x), HalfSums(y));
    StageKeeps(s, t, "s", aa, "aa", 0, Family("l", 15), "l", 0, 8 * SQUARE, l);
    StageKeeps(s, t, "s", aa, "aa", 0, Family("h", 15), "h", 0, 8 * SQUARE, h);
  }

  /** The three column families are the three half products. */
  lemma ColumnsAreProducts(x: seq<int>, y: seq<int>, l: seq<int>, h: seq<int>, m: seq<int>)
    requires |x| == |y| == 16 && Coefficients(l, x[..8], y[..8]) && Coefficients(h, x[8..], y[8..])
    requires Coefficients(m, HalfSums(x), HalfSums(y))
    ensures F.HalfProducts(x, y, l, h, m, Val(R, x[..8]), Val(R, x[8..]), Val(R, y[..8]), Val(R, y[8..]))
  {
    F.ColumnsValue(x[..8], y[..8], l);
    F.ColumnsValue(x[8..], y[8..], h);
    F.ColumnsValue(HalfSums(x), HalfSums(y), m);
    F.ValSum(HalfSums(x), x[..8], x[8..]);
    F.ValSum(HalfSums(y), y[..8], y[8..]);
  }

  /** The columns before the carry are worth the product modulo P. */
  lemma ResultValue(x: seq<int>, y: seq<int>, l: seq<int>, h: seq<int>, m: seq<int>, cols: seq<int>)
    requires |x| == |y| == |cols| == 16 && Coefficients(l, x[..8], y[..8]) && Coefficients(h, x[8..], y[8..])
    requires Coefficients(m, HalfSums(x), HalfSums(y)) && forall i :: 0 <= i < 16 ==> cols[i] == ResultAt(l, h, m, i)
    ensures Cong(Val(R, cols), Val(R, x) * Val(R, y), P)
  {
    ColumnsAreProducts(x, y, l, h, m);
    F.Recombined(x, y, l, h, m, cols[..8], cols[8..], Val(R, x[..8]), Val(R, x[8..]), Val(R, y[..8]), Val(R, y[8..]));
    assert cols[..8] + cols[8..] == cols;
  }

  /** Everything before the carry chain. */
  lemma BeforeCarry(s: Full, square: bool, x: seq<int>, y: seq<int>) returns (t: Full)
    requires Operands16(s, square, x, y)
    ensures Exec(s, HalfLines(square) + LowLines(square) + HighLines(square) + MiddleLines(square) + ResultLines()) == Some(t)
    ensures Chained(t, 0) && Cong(Val(R, Limbs(t)), Val(R, x) * Val(R, y), P)
  {
    var a := HalvesStage(s, square, x, y);
    var b, l := LowStage(a, square, x, y);
    var c, h := HighStage(b, square, x, y, l);
    var d, m := MiddleStage(c, square, x, y, l, h);
    t := ResultStage(d, l, h, m);
    ResultValue(x, y, l, h, m, Limbs(t));
    FiveParts(s, HalfLines(square), a, LowLines(square), b, HighLines(square), c, MiddleLines(square), d, ResultLines(), t);
  }

  lemma FiveParts(s: Full, p: Lines, a: Full, q: Lines, b: Full, u: Lines, c: Full, v: Lines, d: Full, w: Lines, t: Full)
    requires Exec(s, p) == Some(a) && Exec(a, q) == Some(b) && Exec(b, u) == Some(c) && Exec(c, v) == Some(d) && Exec(d, w) == Some(t)
    ensures Exec(s, p + q + u + v + w) == Some(t)
  {
    Sequel(s, p, a, q, b);
    Sequel(s, p + q, b, u, c);
    Sequel(s, p + q + u, c, v, d);
    Sequel(s, p + q + u + v, d, w, t);
  }

  /** `build_product`: from tight operands the program reaches tight limbs worth their product. */
  lemma ProductSound(s: Full, square: bool, x: seq<int>, y: seq<int>) returns (t: Full)
    requires Operands16(s, square, x, y)
    ensures Exec(s, ProductLines(square)) == Some(t) && t.peak < LIMIT
    ensures forall k :: 0 <= k < 16 ==> TightLimb(t, k)
    ensures Cong(Val(R, Limbs(t)), Val(R, x) * Val(R, y), P)
  {
    var m := BeforeCarry(s, square, x, y);
    t := SerialSound(m);
    CongTrans(Val(R, Limbs(t)), Val(R, Limbs(m)), Val(R, x) * Val(R, y), P);
    ThenSerial(s, HalfLines(square) + LowLines(square) + HighLines(square) + MiddleLines(square) + ResultLines(), m, t);
  }

  lemma ThenSerial(s: Full, ls: Lines, m: Full, t: Full)
    requires Exec(s, ls) == Some(m) && Exec(m, SerialLines(Names16("r"))) == Some(t)
    ensures Exec(s, ls + SerialLines(Names16("r"))) == Some(t)
  {
    Sequel(s, ls, m, SerialLines(Names16("r")), t);
  }
}
