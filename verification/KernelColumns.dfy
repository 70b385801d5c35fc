/** The product columns a program computes: each holds a coefficient of the product polynomial, and
    the interval analysis bounds it by eight products. */
module KernelColumns {
  import opened Wrappers
  import opened Arith
  import opened KernelProgram
  import opened KernelNames
  import opened KernelExec
  import opened KernelBuild
  import opened KernelChain
  import F = Fe448Kernels

  // ---------------------------------------------------------------- the sum of a column

  /** How many products a column counts, a doubled one twice. */
  function Weight(square: bool, k: nat, n: nat): nat {
    if n == 0 then 0
    else
      var i, j := n - 1, k - (n - 1);
      Weight(square, k, n - 1)
      + if !(0 <= j < 8) || (square && i > j) then 0 else if square && i < j then 2 else 1
  }

  /** The first row that reaches column k. */
  function FirstRow(k: nat): nat {
    if k < 8 then 0 else k - 7
  }

  lemma {:induction false} SquareWeight(k: nat, n: nat)
    requires k < 15
    ensures n <= FirstRow(k) ==> Weight(true, k, n) == 0
    ensures n > FirstRow(k) ==> Weight(true, k, n) <= 2 * (n - FirstRow(k)) && Weight(true, k, n) <= k + 1 - 2 * FirstRow(k)
  {
    if n > 0 {
      SquareWeight(k, n - 1);
    }
  }

  lemma {:induction false} WeightAtMost(square: bool, k: nat, n: nat)
    requires k < 15
    ensures Weight(square, k, n) <= if square then 8 else n
  {
    if square {
      SquareWeight(k, n);
    } else if n > 0 {
      WeightAtMost(square, k, n - 1);
    }
  }

  predicate Present(names: seq<string>, bound: set<string>) {
    forall i :: 0 <= i < |names| ==> names[i] in bound
  }

  function Doubles(x: seq<string>): (d: seq<string>)
    ensures |d| == |x|
  {
    seq(|x|, i requires 0 <= i < |x| => "d" + x[i])
  }

  /** Column k of a square needs the double of limb i. */
  predicate Needs(square: bool, k: nat, i: nat) {
    square && i < k - i < 8
  }

  predicate DoubleKnown(env: Env, x: seq<string>, i: nat)
    requires i < |x|
  {
    "d" + x[i] in env && ValueOf(env, "d" + x[i]) == 2 * ValueOf(env, x[i])
  }

  /** The doubled limbs of column k hold twice the limb. */
  predicate DoublesKnown(env: Env, x: seq<string>, square: bool, k: nat) {
    forall i :: 0 <= i < |x| && Needs(square, k, i) ==> DoubleKnown(env, x, i)
  }

  lemma SumSnoc(terms: seq<Expr>, e: Expr, env: Env)
    requires NamesOf(terms) <= env.Keys && Names(e) <= env.Keys
    ensures NamesOf(terms + [e]) <= env.Keys && EvalSum(terms + [e], env) == EvalSum(terms, env) + Eval(e, env)
  {
    assert (terms + [e])[..|terms|] == terms;
  }

  lemma ProductValue(u: string, v: string, env: Env)
    requires u in env && v in env
    ensures Names(Times(Name(u), Name(v))) <= env.Keys && Eval(Times(Name(u), Name(v)), env) == env[u] * env[v]
  {
    assert Eval(Name(u), env) == env[u] && Eval(Name(v), env) == env[v];
  }

  /** A column sums the coefficient. */
  lemma {:induction false} PlainSum(env: Env, x: seq<string>, y: seq<string>, k: nat, n: nat)
    requires |x| == |y| == 8 && n <= 8 && Present(x, env.Keys) && Present(y, env.Keys)
    ensures NamesOf(Terms(x, y, false, k, n)) <= env.Keys
    ensures EvalSum(Terms(x, y, false, k, n), env) == F.Conv(Read(env, x)[..n], Read(env, y), k)
  {
    if n > 0 {
      var i, j := n - 1, k - (n - 1);
      PlainSum(env, x, y, k, i);
      assert Read(env, x)[..n][..i] == Read(env, x)[..i];
      if 0 <= j < 8 {
        ProductValue(x[i], y[j], env);
        SumSnoc(Terms(x, y, false, k, i), Times(Name(x[i]), Name(y[j])), env);
      } else {
        assert Terms(x, y, false, k, n) == Terms(x, y, false, k, i);
      }
    }
  }

  lemma SquareEntry(env: Env, x: seq<string>, i: nat, j: int)
    requires |x| == 8 && i < 8 && Present(x, env.Keys) && (i < j < 8 ==> DoubleKnown(env, x, i))
    ensures NamesOf(TermAt(x, x, true, i, j)) <= env.Keys
    ensures EvalSum(TermAt(x, x, true, i, j), env) == F.SquareTerm(Read(env, x), i, j)
  {
    if i < j < 8 {
      ProductValue("d" + x[i], x[j], env);
      SumSnoc([], Times(Name("d" + x[i]), Name(x[j])), env);
    } else if i == j {
      ProductValue(x[i], x[j], env);
      SumSnoc([], Times(Name(x[i]), Name(x[j])), env);
    }
  }

  lemma SumAppend(a: seq<Expr>, b: seq<Expr>, env: Env)
    requires NamesOf(a) <= env.Keys && NamesOf(b) <= env.Keys && |b| <= 1
    ensures NamesOf(a + b) <= env.Keys && EvalSum(a + b, env) == EvalSum(a, env) + EvalSum(b, env)
  {
    if |b| == 1 {
      assert b[..0] == [] && b == [b[0]];
      SumSnoc(a, b[0], env);
    } else {
      assert a + b == a;
    }
  }

  lemma {:induction false} SquaredSum(env: Env, x: seq<string>, k: nat, n: nat)
    requires |x| == 8 && n <= 8 && k < 15 && Present(x, env.Keys) && DoublesKnown(env, x, true, k)
    ensures NamesOf(Terms(x, x, true, k, n)) <= env.Keys
    ensures EvalSum(Terms(x, x, true, k, n), env) + F.SquareSum(Read(env, x), k, n) == F.SquareSum(Read(env, x), k, 0)
  {
    if n > 0 {
      var i := n - 1;
      SquaredSum(env, x, k, i);
      assert Needs(true, k, i) ==> DoubleKnown(env, x, i);
      SquareEntry(env, x, i, k - i);
      SumAppend(Terms(x, x, true, k, i), TermAt(x, x, true, i, k - i), env);
    }
  }

  /** Plain or squared, column k holds coefficient k. */
  lemma ColumnValue(env: Env, x: seq<string>, y: seq<string>, square: bool, k: nat)
    requires |x| == |y| == 8 && k < 15 && (square ==> x == y) && Present(x, env.Keys) && Present(y, env.Keys)
    requires DoublesKnown(env, x, square, k)
    ensures NamesOf(Terms(x, y, square, k, 8)) <= env.Keys
    ensures EvalSum(Terms(x, y, square, k, 8), env) == F.Conv(Read(env, x), Read(env, y), k)
  {
    if square {
      SquaredSum(env, x, k, 8);
      F.SquareColumn(Read(env, x), k);
    } else {
      PlainSum(env, x, y, k, 8);
      assert Read(env, x)[..8] == Read(env, x);
    }
  }

  // ---------------------------------------------------------------- its bound

  lemma ProductCap(bounds: Bounds, u: string, v: string, b: nat, c: nat, p: nat, m: nat)
    requires CappedAt(bounds, u, b) && CappedAt(bounds, v, c) && b <= m && c <= m && b * c <= p <= m
    ensures Names(Times(Name(u), Name(v))) <= bounds.Keys
    ensures Bound(Times(Name(u), Name(v)), bounds).value <= p && Bound(Times(Name(u), Name(v)), bounds).peak <= m
  {
    var x, y := bounds[u], bounds[v];
    assert Bound(Name(u), bounds) == Range(x, x) && Bound(Name(v), bounds) == Range(y, y);
    MulMonotone(x, b, y);
    MulMonotone(y, c, b);
  }

  lemma SumCap(bounds: Bounds, terms: seq<Expr>, e: Expr, p: nat, q: nat, m: nat)
    requires NamesOf(terms) <= bounds.Keys && Names(e) <= bounds.Keys
    requires BoundSum(terms, bounds).value <= p && BoundSum(terms, bounds).peak <= m
    requires Bound(e, bounds).value <= q && Bound(e, bounds).peak <= m && p + q <= m
    ensures NamesOf(terms + [e]) <= bounds.Keys
    ensures BoundSum(terms + [e], bounds).value <= p + q && BoundSum(terms + [e], bounds).peak <= m
  {
    assert (terms + [e])[..|terms|] == terms;
  }

  predicate DoublesCapped(bounds: Bounds, x: seq<string>, square: bool, k: nat, b: nat) {
    forall i :: 0 <= i < |x| && Needs(square, k, i) ==> CappedAt(bounds, "d" + x[i], 2 * b)
  }

  lemma WeightStep(w: nat, v: nat, q: nat)
    requires v <= 8
    ensures w * q >= 0 && v * q <= 8 * q
    ensures v == w + 1 ==> v * q == w * q + q
    ensures v == w + 2 ==> v * q == w * q + 2 * q
  {
    MulMonotone(0, w, q);
    MulMonotone(v, 8, q);
  }

  /** The weight of the terms times the largest product bounds a column. */
  lemma {:induction false} TermsCap(bounds: Bounds, x: seq<string>, y: seq<string>, square: bool, k: nat, n: nat, b: nat, q: nat)
    requires |x| == |y| == 8 && n <= 8 && k < 15 && NamesCapped(bounds, x, b) && NamesCapped(bounds, y, b)
    requires DoublesCapped(bounds, x, square, k, b) && b <= q && b * b <= q
    ensures NamesOf(Terms(x, y, square, k, n)) <= bounds.Keys
    ensures BoundSum(Terms(x, y, square, k, n), bounds).value <= Weight(square, k, n) * q
    ensures BoundSum(Terms(x, y, square, k, n), bounds).peak <= 8 * q
  {
    if n == 0 {
      assert BoundSum([], bounds) == Range(0, 0);
    } else {
      var i := n - 1;
      var w, v := Weight(square, k, i), Weight(square, k, n);
      TermsCap(bounds, x, y, square, k, i, b, q);
      WeightAtMost(square, k, n);
      WeightStep(w, v, q);
      TermCap(bounds, x, y, square, k, i, b, q, Terms(x, y, square, k, i), w * q, v * q);
    }
  }

  /** What a term adds to the bound: nothing, q or 2 q. */
  function Added(square: bool, k: nat, i: nat, q: nat): nat {
    if !(0 <= k - i < 8) || (square && i > k - i) then 0 else if square && i < k - i then 2 * q else q
  }

  lemma TermCap(bounds: Bounds, x: seq<string>, y: seq<string>, square: bool, k: nat, i: nat, b: nat, q: nat,
                terms: seq<Expr>, before: nat, after: nat)
    requires |x| == |y| == 8 && i < 8 && NamesCapped(bounds, x, b) && NamesCapped(bounds, y, b)
    requires DoublesCapped(bounds, x, square, k, b) && b <= q && b * b <= q
    requires after == before + Added(square, k, i, q) <= 8 * q
    requires NamesOf(terms) <= bounds.Keys && BoundSum(terms, bounds).value <= before && BoundSum(terms, bounds).peak <= 8 * q
    ensures NamesOf(terms + TermAt(x, y, square, i, k - i)) <= bounds.Keys
    ensures BoundSum(terms + TermAt(x, y, square, i, k - i), bounds).value <= after
    ensures BoundSum(terms + TermAt(x, y, square, i, k - i), bounds).peak <= 8 * q
  {
    var j := k - i;
    if !(0 <= j < 8) || (square && i > j) {
      assert terms + TermAt(x, y, square, i, j) == terms;
    } else if square && i < j {
      assert Needs(square, k, i);
      TwiceSquare(b, q);
      AddedCap(bounds, "d" + x[i], y[j], 2 * b, b, terms, before, 2 * q, 8 * q);
    } else {
      AddedCap(bounds, x[i], y[j], b, b, terms, before, q, 8 * q);
    }
  }

  lemma TwiceSquare(b: nat, q: nat)
    requires b * b <= q
    ensures (2 * b) * b <= 2 * q
  {
    assert (2 * b) * b == 2 * (b * b);
  }

  lemma AddedCap(bounds: Bounds, u: string, v: string, b: nat, c: nat, terms: seq<Expr>, before: nat, p: nat, m: nat)
    requires CappedAt(bounds, u, b) && CappedAt(bounds, v, c) && b <= m && c <= m && b * c <= p && before + p <= m
    requires NamesOf(terms) <= bounds.Keys && BoundSum(terms, bounds).value <= before && BoundSum(terms, bounds).peak <= m
    ensures var all := terms + [Times(Name(u), Name(v))];
      NamesOf(all) <= bounds.Keys && BoundSum(all, bounds).value <= before + p && BoundSum(all, bounds).peak <= m
  {
    ProductCap(bounds, u, v, b, c, p, m);
    SumCap(bounds, terms, Times(Name(u), Name(v)), before, p, m);
  }

  // ---------------------------------------------------------------- the columns of a program

  /** The names the columns define are not their operands. */
  predicate Clean(p: string, x: seq<string>, y: seq<string>) {
    && Apart(Family(p, 15), x) && Apart(Family(p, 15), y) && Apart(Family(p, 15), Doubles(x))
    && Apart(Doubles(x), x) && Apart(Doubles(x), y) && Different(Doubles(x)) && Different(Family(p, 15))
  }

  predicate Touched(p: string, x: seq<string>, v: string) {
    v in Family(p, 15) || v in Doubles(x)
  }

  predicate ColumnMade(s: Full, t: Full, p: string, x: seq<string>, y: seq<string>, k: nat, q: nat)
    requires k < 15
  {
    CappedAt(t.bounds, Id(p, k), 8 * q) && ValueOf(t.env, Id(p, k)) == F.Conv(Read(s.env, x), Read(s.env, y), k)
  }

  predicate DoubleMade(t: Full, x: seq<string>, i: nat, b: nat)
    requires i < |x|
  {
    CappedAt(t.bounds, "d" + x[i], 2 * b) && DoubleKnown(t.env, x, i)
  }

  /** The operands of the columns, as they were at state s and still are. */
  ghost predicate Operands(s: Full, t: Full, p: string, x: seq<string>, y: seq<string>, b: nat) {
    && t.peak < LIMIT && NamesCapped(s.bounds, x, b) && NamesCapped(s.bounds, y, b)
    && forall v :: !Touched(p, x, v) ==> Kept(s, t, v)
  }

  /** The first n columns are made, and the doubled limbs of columns below d. */
  ghost predicate Columned(s: Full, t: Full, p: string, x: seq<string>, y: seq<string>, square: bool, n: nat, d: nat, b: nat, q: nat)
    requires |x| == |y| == 8 && n <= 15
  {
    && Operands(s, t, p, x, y, b)
    && (forall k :: 0 <= k < n ==> ColumnMade(s, t, p, x, y, k, q))
    && (square ==> forall i :: 0 <= i < 8 && 2 * i + 1 < d ==> DoubleMade(t, x, i, b))
  }

  lemma Untouched(p: string, x: seq<string>, y: seq<string>, v: string)
    requires Clean(p, x, y) && (v in x || v in y)
    ensures !Touched(p, x, v)
  {
    if v in x {
      var i :| 0 <= i < |x| && x[i] == v;
    } else {
      var i :| 0 <= i < |y| && y[i] == v;
    }
  }

  /** The operands keep their values and bounds. */
  lemma OperandsKept(s: Full, t: Full, p: string, x: seq<string>, y: seq<string>, b: nat)
    requires Clean(p, x, y) && Operands(s, t, p, x, y, b)
    ensures Read(t.env, x) == Read(s.env, x) && Read(t.env, y) == Read(s.env, y)
    ensures NamesCapped(t.bounds, x, b) && NamesCapped(t.bounds, y, b)
    ensures Present(x, t.env.Keys) && Present(y, t.env.Keys)
  {
    forall i | 0 <= i < |x| ensures Kept(s, t, x[i]) {
      Untouched(p, x, y, x[i]);
      assert CappedAt(s.bounds, x[i], b);
    }
    forall i | 0 <= i < |y| ensures Kept(s, t, y[i]) {
      Untouched(p, x, y, y[i]);
      assert CappedAt(s.bounds, y[i], b);
    }
  }

  /** Assigning one more touched name. */
  lemma OperandsStill(s: Full, t: Full, u: Full, p: string, x: seq<string>, y: seq<string>, b: nat, name: string)
    requires Operands(s, t, p, x, y, b) && u.peak < LIMIT && KeptBut(t, u, {name}) && Touched(p, x, name)
    ensures Operands(s, u, p, x, y, b)
  {
    forall v | !Touched(p, x, v) ensures Kept(s, u, v) {
      assert Kept(s, t, v) && Kept(t, u, v);
    }
  }

  /** Columns and doubled limbs other than the one just assigned are still there. */
  lemma StillMade(s: Full, t: Full, u: Full, p: string, x: seq<string>, y: seq<string>, square: bool, n: nat, d: nat, b: nat, q: nat, name: string)
    requires |x| == |y| == 8 && n <= 15 && Clean(p, x, y) && Columned(s, t, p, x, y, square, n, d, b, q)
    requires u.peak < LIMIT && KeptBut(t, u, {name}) && Touched(p, x, name)
    requires forall k :: 0 <= k < n ==> Family(p, 15)[k] != name
    requires forall i :: 0 <= i < 8 && 2 * i + 1 < d ==> Doubles(x)[i] != name
    ensures Columned(s, u, p, x, y, square, n, d, b, q)
  {
    OperandsStill(s, t, u, p, x, y, b, name);
    forall k | 0 <= k < n ensures ColumnMade(s, u, p, x, y, k, q) {
      assert ColumnMade(s, t, p, x, y, k, q) && Family(p, 15)[k] == Id(p, k);
      assert Kept(t, u, Id(p, k));
    }
    if square {
      forall i | 0 <= i < 8 && 2 * i + 1 < d ensures DoubleMade(u, x, i, b) {
        assert DoubleMade(t, x, i, b) && Doubles(x)[i] == "d" + x[i];
        assert Kept(t, u, "d" + x[i]);
        Untouched(p, x, y, x[i]);
        assert Kept(t, u, x[i]);
      }
    }
  }

  /** The doubled limb of column k, if the column needs a new one. */
  lemma MakeDouble(s: Full, t: Full, p: string, x: seq<string>, y: seq<string>, square: bool, k: nat, b: nat, q: nat) returns (u: Full)
    requires |x| == |y| == 8 && k < 15 && Clean(p, x, y) && Columned(s, t, p, x, y, square, k, k, b, q) && 2 * b < LIMIT
    ensures Exec(t, DoubleLines(x, square, k)) == Some(u) && Columned(s, u, p, x, y, square, k, k + 1, b, q)
  {
    if square && k % 2 == 1 {
      var i := k / 2;
      OperandsKept(s, t, p, x, y, b);
      assert CappedAt(t.bounds, x[i], b) && Doubles(x)[i] == "d" + x[i];
      u := AddStep(t, "d" + x[i], x[i], x[i], 2 * b);
      StillMade(s, t, u, p, x, y, square, k, k, b, q, "d" + x[i]);
      Untouched(p, x, y, x[i]);
      assert Kept(t, u, x[i]);
      assert DoubleMade(u, x, i, b);
    } else {
      u := t;
    }
  }

  lemma ColumnFits(s: Full, t: Full, p: string, x: seq<string>, y: seq<string>, square: bool, k: nat, b: nat, q: nat)
    requires |x| == |y| == 8 && k < 15 && (square ==> x == y) && Clean(p, x, y) && Columned(s, t, p, x, y, square, k, k + 1, b, q)
    requires b <= q && b * b <= q && 8 * q < LIMIT
    ensures Fits(t, ColumnLine(p, x, y, square, k), 8 * q)
    ensures Eval(ColumnLine(p, x, y, square, k).rhs, t.env) == F.Conv(Read(s.env, x), Read(s.env, y), k)
  {
    OperandsKept(s, t, p, x, y, b);
    forall i | 0 <= i < 8 && Needs(square, k, i) ensures CappedAt(t.bounds, "d" + x[i], 2 * b) && DoubleKnown(t.env, x, i) {
      assert 2 * i + 1 < k + 1 && DoubleMade(t, x, i, b);
    }
    ColumnValue(t.env, x, y, square, k);
    TermsCap(t.bounds, x, y, square, k, 8, b, q);
    WeightAtMost(square, k, 8);
    WeightStep(0, Weight(square, k, 8), q);
  }

  /** One more column. */
  lemma MakeColumn(s: Full, t: Full, p: string, x: seq<string>, y: seq<string>, square: bool, k: nat, b: nat, q: nat) returns (u: Full)
    requires |x| == |y| == 8 && k < 15 && (square ==> x == y) && Clean(p, x, y) && Columned(s, t, p, x, y, square, k, k + 1, b, q)
    requires b <= q && b * b <= q && 8 * q < LIMIT
    ensures Exec(t, [ColumnLine(p, x, y, square, k)]) == Some(u) && Columned(s, u, p, x, y, square, k + 1, k + 1, b, q)
  {
    ColumnFits(s, t, p, x, y, square, k, b, q);
    u := Step(t, ColumnLine(p, x, y, square, k), 8 * q);
    assert Family(p, 15)[k] == Id(p, k);
    StillMade(s, t, u, p, x, y, square, k, k + 1, b, q, Id(p, k));
    assert ColumnMade(s, u, p, x, y, k, q);
  }

  /** `product_columns`: every column holds its coefficient, within eight products. */
  lemma {:induction false} ColumnsSound(s: Full, p: string, x: seq<string>, y: seq<string>, square: bool, n: nat, b: nat, q: nat) returns (t: Full)
    requires |x| == |y| == 8 && n <= 15 && (square ==> x == y) && Clean(p, x, y) && s.peak < LIMIT
    requires NamesCapped(s.bounds, x, b) && NamesCapped(s.bounds, y, b) && b <= q && b * b <= q && 8 * q < LIMIT
    ensures Exec(s, ColumnLines(p, x, y, square, n)) == Some(t) && Columned(s, t, p, x, y, square, n, n, b, q)
  {
    if n == 0 {
      t := s;
    } else {
      var m := ColumnsSound(s, p, x, y, square, n - 1, b, q);
      var u := MakeDouble(s, m, p, x, y, square, n - 1, b, q);
      t := MakeColumn(s, u, p, x, y, square, n - 1, b, q);
      Sequel(s, ColumnLines(p, x, y, square, n - 1), m, DoubleLines(x, square, n - 1), u);
      Sequel(s, ColumnLines(p, x, y, square, n - 1) + DoubleLines(x, square, n - 1), u, [ColumnLine(p, x, y, square, n - 1)], t);
    }
  }
}
