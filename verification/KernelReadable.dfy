/** What the generator writes can be read back: legal names, brackets where the reader needs them,
    and a function of the shape the reader accepts. */
module KernelReadable {
  import opened KernelProgram
  import opened KernelSyntax
  import opened KernelNames
  import opened KernelExec
  import opened KernelBuild
  import A = KernelAnalysis
  import S = KernelSsa
  import T = KernelRoundTrip
  import X = KernelText

  // ---------------------------------------------------------------- names

  lemma KeywordEnd(c: char, w: string)
    requires w in Keywords(c)
    ensures !EndsInDigit(w)
  {
  }

  /** A numbered name is a variable, and no parameter. */
  lemma NumberedVariable(p: string, i: nat)
    requires i < 100
    ensures Variable(Id(p, i)) && Id(p, i) !in {"a", "b", "k", "out"}
  {
    var s := Id(p, i);
    IdEnds(p, i);
    forall w | w in Keywords(s[0]) ensures w != s {
      KeywordEnd(s[0], w);
    }
    assert !EndsInDigit("of_int") && !EndsInDigit("to_int");
    assert !EndsInDigit("a") && !EndsInDigit("b") && !EndsInDigit("k") && !EndsInDigit("out");
  }

  lemma WordVariable(w: string)
    requires w in {"c", "k"}
    ensures Variable(w)
  {
    forall v | v in Keywords(w[0]) ensures v != w {
      assert |v| > 1;
    }
  }

  predicate ParamName(v: string) {
    v == "a" || v == "b" || v == "k" || v == "out"
  }

  // ---------------------------------------------------------------- expressions

  /** Shift amounts the reader accepts. */
  predicate ShortShifts(e: Expr) {
    match e
    case Name(_) => true
    case Const(_) => true
    case Plus(a, b) => ShortShifts(a) && ShortShifts(b)
    case Minus(a, b) => ShortShifts(a) && ShortShifts(b)
    case Times(a, b) => ShortShifts(a) && ShortShifts(b)
    case Sum(terms) => ShortShiftsAll(terms)
    case Asr(a, k) => ShortShifts(a) && k < 62
    case Lsl(a, k) => ShortShifts(a) && k < 62
  }

  predicate ShortShiftsAll(terms: seq<Expr>) {
    |terms| > 0 ==> ShortShiftsAll(terms[..|terms| - 1]) && ShortShifts(terms[|terms| - 1])
  }

  lemma {:induction false} ArithmeticChecked(e: Expr, wide: bool)
    requires ShortShifts(e)
    ensures S.CheckArith(ToRaw(e, wide), wide)
  {
    match e
    case Name(_) =>
    case Const(_) =>
    case Plus(a, b) => ArithmeticChecked(a, wide); ArithmeticChecked(b, wide);
    case Minus(a, b) => ArithmeticChecked(a, wide); ArithmeticChecked(b, wide);
    case Times(a, b) => ArithmeticChecked(a, wide); ArithmeticChecked(b, wide);
    case Sum(terms) => SumChecked(terms, wide);
    case Asr(a, _) => ArithmeticChecked(a, wide);
    case Lsl(a, _) => ArithmeticChecked(a, wide);
  }

  lemma {:induction false} SumChecked(terms: seq<Expr>, wide: bool)
    requires ShortShiftsAll(terms)
    ensures S.CheckArith(SumToRaw(terms, wide), wide)
  {
    if |terms| > 0 {
      SumChecked(terms[..|terms| - 1], wide);
      ArithmeticChecked(terms[|terms| - 1], wide);
      if |terms| == 1 {
        assert terms[|terms| - 1] == terms[0];
      }
    }
  }

  /** Reading an expression back introduces no names. */
  lemma {:induction false} RawNamesWithin(e: Expr, wide: bool)
    ensures S.RawNames(ToRaw(e, wide)) <= Names(e)
  {
    match e
    case Name(_) =>
    case Const(_) =>
    case Plus(a, b) => RawNamesWithin(a, wide); RawNamesWithin(b, wide);
    case Minus(a, b) => RawNamesWithin(a, wide); RawNamesWithin(b, wide);
    case Times(a, b) => RawNamesWithin(a, wide); RawNamesWithin(b, wide);
    case Sum(terms) => RawSumWithin(terms, wide);
    case Asr(a, _) => RawNamesWithin(a, wide);
    case Lsl(a, _) => RawNamesWithin(a, wide);
  }

  lemma {:induction false} RawSumWithin(terms: seq<Expr>, wide: bool)
    ensures S.RawNames(SumToRaw(terms, wide)) <= NamesOf(terms)
  {
    if |terms| > 0 {
      RawSumWithin(terms[..|terms| - 1], wide);
      RawNamesWithin(terms[|terms| - 1], wide);
      if |terms| == 1 {
        assert terms[|terms| - 1] == terms[0];
      }
    }
  }

  // ---------------------------------------------------------------- functions the reader accepts

  lemma {:induction false} LetNamesAre(f: S.Function, i: nat)
    requires i <= |f.lets|
    ensures forall v :: v in S.LetNames(f, i) <==> exists j :: 0 <= j < i && f.lets[j].name == v
  {
    if i > 0 {
      LetNamesAre(f, i - 1);
    }
  }

  /** Loads first: the leading bindings that load are exactly the loads. */
  lemma {:induction false} LoadCountIs(k: X.Source, i: nat)
    requires i <= X.LoadTotal(k)
    ensures S.LoadCount(X.FunctionOf(k), i) == X.LoadTotal(k)
    decreases X.LoadTotal(k) - i
  {
    var f := X.FunctionOf(k);
    if i < X.LoadTotal(k) {
      LoadCountIs(k, i + 1);
    } else if |k.stmts| > 0 {
      X.NotALoad(k.stmts[0].rhs, k.wide);
    }
  }

  /** A load of a limb below 16 of a parameter other than `out`, under a name of its own. */
  predicate FreshLoad(k: X.Source, i: nat)
    requires i < X.LoadTotal(k)
  {
    var l := X.Loads(k.operands)[i];
    && S.Binder(X.FunctionOf(k), l.id) && S.Param(l.param, S.IntArray) in X.Params(k) && l.param != "out" && l.index < 16
    && forall j :: 0 <= j < i ==> X.Loads(k.operands)[j].param != l.param || X.Loads(k.operands)[j].index != l.index
  }

  lemma LoadAccepted(k: X.Source, i: nat)
    requires i < X.LoadTotal(k) && FreshLoad(k, i)
    ensures S.GoodLoad(X.FunctionOf(k), i)
  {
    var f := X.FunctionOf(k);
    forall j | 0 <= j < i && S.IsLoad(f, j) ensures S.LoadInput(f, j) != S.LoadInput(f, i) {
      assert f.lets[j].name == X.Loads(k.operands)[j].id;
    }
  }

  /** The names a statement may read: loaded limbs, int parameters, earlier statements. */
  predicate Supplies(k: X.Source, inputs: set<string>) {
    forall v :: v in inputs ==> v in S.ScalarNames(X.Params(k)) || X.Seen(X.Loads(k.operands), v)
  }

  lemma {:induction false} BoundIsLet(k: X.Source, inputs: set<string>, i: nat, v: string)
    requires i <= |k.stmts| && Supplies(k, inputs) && v in A.Bound(k.stmts, inputs, i)
    ensures v in S.LetNames(X.FunctionOf(k), X.LoadTotal(k) + i) + S.ScalarNames(X.Params(k))
  {
    var f := X.FunctionOf(k);
    LetNamesAre(f, X.LoadTotal(k) + i);
    if i == 0 {
      if X.Seen(X.Loads(k.operands), v) {
        var j :| 0 <= j < X.LoadTotal(k) && X.Loads(k.operands)[j].id == v;
        assert f.lets[j].name == v;
      }
    } else if v == k.stmts[i - 1].name {
      assert f.lets[X.LoadTotal(k) + i - 1].name == v;
    } else {
      BoundIsLet(k, inputs, i - 1, v);
      LetNamesAre(f, X.LoadTotal(k) + i - 1);
    }
  }

  lemma StatementAccepted(k: X.Source, inputs: set<string>, i: nat)
    requires i < |k.stmts| && Supplies(k, inputs) && Names(k.stmts[i].rhs) <= A.Bound(k.stmts, inputs, i)
    requires ShortShifts(k.stmts[i].rhs) && S.Binder(X.FunctionOf(k), k.stmts[i].name)
    ensures S.GoodStatement(X.FunctionOf(k), X.LoadTotal(k) + i)
  {
    var f, n := X.FunctionOf(k), X.LoadTotal(k) + i;
    assert f.lets[n] == S.Let(k.stmts[i].name, ToRaw(k.stmts[i].rhs, k.wide));
    ArithmeticChecked(k.stmts[i].rhs, k.wide);
    RawNamesWithin(k.stmts[i].rhs, k.wide);
    forall v | v in S.RawNames(f.lets[n].rhs) ensures v in S.LetNames(f, n) + S.ScalarNames(f.params) {
      BoundIsLet(k, inputs, i, v);
    }
  }

  lemma StoreAccepted(k: X.Source, inputs: set<string>, n: nat)
    requires n < |k.outputs| == 16 && Supplies(k, inputs) && k.outputs[n] in A.Bound(k.stmts, inputs, |k.stmts|)
    ensures S.GoodStore(X.FunctionOf(k), n) && S.StoresLimb(X.FunctionOf(k), n, 16)
  {
    var f := X.FunctionOf(k);
    BoundIsLet(k, inputs, |k.stmts|, k.outputs[n]);
    assert f.stores[n] == X.StoreOf(k, n);
    forall l | 0 <= l < n ensures f.stores[l].index != f.stores[n].index {
      assert f.stores[l] == X.StoreOf(k, l);
    }
  }

  /** Names a kernel may bind: variables other than its parameters. */
  predicate Bindable(k: X.Source) {
    && (forall i :: 0 <= i < X.LoadTotal(k) ==> FreshLoad(k, i))
    && forall i :: 0 <= i < |k.stmts| ==> S.Binder(X.FunctionOf(k), k.stmts[i].name) && ShortShifts(k.stmts[i].rhs)
  }

  lemma StatementsAccepted(k: X.Source, exact: map<nat, int>, inputs: set<string>)
    requires A.Accepted(k.stmts, exact, inputs, |k.stmts|) && Supplies(k, inputs) && Bindable(k)
    ensures forall i :: X.LoadTotal(k) <= i < |X.FunctionOf(k).lets| ==> S.GoodStatement(X.FunctionOf(k), i)
  {
    var f := X.FunctionOf(k);
    forall i | X.LoadTotal(k) <= i < |f.lets| ensures S.GoodStatement(f, i) {
      var j := i - X.LoadTotal(k);
      assert A.Justified(k.stmts, exact, inputs, j);
      StatementAccepted(k, inputs, j);
    }
  }

  predicate OutputsBound(k: X.Source, inputs: set<string>) {
    |k.outputs| == 16 && forall i :: 0 <= i < 16 ==> k.outputs[i] in A.Bound(k.stmts, inputs, |k.stmts|)
  }

  lemma StoresAccepted(k: X.Source, inputs: set<string>)
    requires Supplies(k, inputs) && OutputsBound(k, inputs)
    ensures |X.FunctionOf(k).stores| == 16
    ensures forall n :: 0 <= n < 16 ==> S.GoodStore(X.FunctionOf(k), n) && S.StoresLimb(X.FunctionOf(k), n, 16)
  {
    var f := X.FunctionOf(k);
    forall n | 0 <= n < 16 ensures S.GoodStore(f, n) && S.StoresLimb(f, n, 16) {
      StoreAccepted(k, inputs, n);
    }
  }

  /** Every program the interval analysis accepts, on inputs the kernel loads or is passed, has a
      text the reader accepts. */
  lemma AcceptedIsAcceptable(k: X.Source, exact: map<nat, int>, inputs: set<string>)
    requires A.Accepted(k.stmts, exact, inputs, |k.stmts|) && Supplies(k, inputs) && Bindable(k) && OutputsBound(k, inputs)
    requires k.wide ==> S.ScalarNames(X.Params(k)) == {}
    ensures S.Acceptable(X.FunctionOf(k))
  {
    var f := X.FunctionOf(k);
    LoadCountIs(k, 0);
    forall i | 0 <= i < X.LoadTotal(k) ensures S.GoodLoad(f, i) {
      LoadAccepted(k, i);
    }
    StatementsAccepted(k, exact, inputs);
    StoresAccepted(k, inputs);
    if k.wide {
      forall p | p in f.params ensures p.kind != S.Scalar {
        assert p.kind == S.Scalar ==> p.name in S.ScalarNames(f.params);
      }
    }
  }

  // ---------------------------------------------------------------- the builders' lines

  predicate Readable(e: Expr) {
    T.Spelled(e, true) && T.Spelled(e, false) && T.Bracketed(e) && ShortShifts(e)
  }

  predicate GoodLine(l: Line) {
    Variable(l.name) && !ParamName(l.name) && Readable(l.rhs)
  }

  predicate GoodLines(ls: Lines) {
    forall i :: 0 <= i < |ls| ==> GoodLine(ls[i])
  }

  lemma GoodAppend(a: Lines, b: Lines)
    requires GoodLines(a) && GoodLines(b)
    ensures GoodLines(a + b)
  {
  }

  lemma IdGood(p: string, i: nat)
    requires i < 100
    ensures Variable(Id(p, i)) && !ParamName(Id(p, i))
  {
    NumberedVariable(p, i);
  }

  lemma NameReadable(v: string)
    requires Variable(v)
    ensures Readable(Name(v)) && Readable(Const(HALF))
  {
  }

  lemma PairReadable(u: string, v: string)
    requires Variable(u) && Variable(v)
    ensures Readable(Plus(Name(u), Name(v))) && Readable(Minus(Name(u), Name(v))) && Readable(Times(Name(u), Name(v)))
  {
  }

  lemma CarryReadable(x: string, c: string)
    requires Variable(x) && Variable(c)
    ensures Readable(Carried(x)) && Readable(Remainder(x, c))
  {
    NameReadable(x);
    NameReadable(c);
    var p, q := Plus(Name(x), Const(HALF)), Lsl(Name(c), RADIX);
    assert Readable(p) && T.Level(p, 2) == 3;
    assert Readable(q) && T.Level(q, 1) == 3;
  }

  /** Terms a sum may have: names, or products of names. */
  predicate Factor(e: Expr) {
    Readable(e) && T.Level(e, 1) >= 1
  }

  lemma {:induction false} SumReadable(terms: seq<Expr>)
    requires |terms| > 0 && forall i :: 0 <= i < |terms| ==> Factor(terms[i])
    ensures Readable(Sum(terms))
  {
    var n := |terms| - 1;
    assert Factor(terms[n]);
    if n > 0 {
      SumReadable(terms[..n]);
    } else {
      assert terms[..n] == [];
    }
  }

  lemma NameFactor(v: string)
    requires Variable(v)
    ensures Factor(Name(v))
  {
  }

  lemma ProductFactor(u: string, v: string)
    requires Variable(u) && Variable(v)
    ensures Factor(Times(Name(u), Name(v)))
  {
    PairReadable(u, v);
  }

  predicate Variables(x: seq<string>) {
    forall i :: 0 <= i < |x| ==> Variable(x[i])
  }

  lemma {:induction false} TermsAreFactors(x: seq<string>, y: seq<string>, square: bool, k: nat, n: nat)
    requires |x| == |y| == 8 && n <= 8 && Variables(x) && Variables(y) && (forall i :: 0 <= i < 8 ==> Variable("d" + x[i]))
    ensures forall i :: 0 <= i < |Terms(x, y, square, k, n)| ==> Factor(Terms(x, y, square, k, n)[i])
  {
    if n > 0 {
      var i, j := n - 1, k - (n - 1);
      TermsAreFactors(x, y, square, k, i);
      if 0 <= j < 8 {
        ProductFactor("d" + x[i], y[j]);
        ProductFactor(x[i], y[j]);
      }
    }
  }

  /** Every column has a term: the one at its middle. */
  lemma {:induction false} TermsExist(x: seq<string>, y: seq<string>, square: bool, k: nat, n: nat)
    requires |x| == |y| == 8 && k < 15 && k / 2 < n <= 8
    ensures |Terms(x, y, square, k, n)| > 0
  {
    if n - 1 > k / 2 {
      TermsExist(x, y, square, k, n - 1);
    } else {
      assert |TermAt(x, y, square, n - 1, k - (n - 1))| == 1;
    }
  }

  lemma ColumnReadable(p: string, x: seq<string>, y: seq<string>, square: bool, k: nat)
    requires |x| == |y| == 8 && k < 15 && Variables(x) && Variables(y) && (forall i :: 0 <= i < 8 ==> Variable("d" + x[i]))
    ensures GoodLine(ColumnLine(p, x, y, square, k))
  {
    IdGood(p, k);
    TermsAreFactors(x, y, square, k, 8);
    TermsExist(x, y, square, k, 8);
    SumReadable(Terms(x, y, square, k, 8));
  }

  /** Operands whose doubles are names of their own. */
  predicate Doubling(x: seq<string>) {
    |x| == 8 && Variables(x) && forall i :: 0 <= i < 8 ==> Variable("d" + x[i]) && !ParamName("d" + x[i])
  }

  lemma {:induction false} ColumnsReadable(p: string, x: seq<string>, y: seq<string>, square: bool, n: nat)
    requires Doubling(x) && |y| == 8 && Variables(y) && n <= 15
    ensures GoodLines(ColumnLines(p, x, y, square, n))
  {
    if n > 0 {
      ColumnsReadable(p, x, y, square, n - 1);
      ColumnReadable(p, x, y, square, n - 1);
      if square && (n - 1) % 2 == 1 {
        PairReadable(x[(n - 1) / 2], x[(n - 1) / 2]);
      }
      GoodAppend(ColumnLines(p, x, y, square, n - 1), DoubleLines(x, square, n - 1));
    }
  }

  lemma FamilyVariables(p: string, n: nat)
    requires n <= 100
    ensures Variables(Family(p, n))
  {
    forall i | 0 <= i < n ensures Variable(Family(p, n)[i]) {
      IdGood(p, i);
    }
  }

  lemma SumsReadable(p: string, a: seq<string>)
    requires |a| == 16 && Variables(a)
    ensures GoodLines(SumLines(p, a))
  {
    forall i | 0 <= i < 8 ensures GoodLine(SumLines(p, a)[i]) {
      IdGood(p, i);
      PairReadable(a[i], a[i + 8]);
    }
  }

  lemma MinusReadable(terms: seq<Expr>, v: string)
    requires |terms| > 0 && (forall i :: 0 <= i < |terms| ==> Factor(terms[i])) && Variable(v)
    ensures Readable(Minus(Sum(terms), Name(v)))
  {
    SumReadable(terms);
    NameReadable(v);
  }

  /** A result column, or its tail: a sum of names less a name, or a sum of names. */
  lemma ColumnReadableAt(u: string, v: string, w: string, z: string)
    requires Variable(u) && Variable(v) && Variable(w) && Variable(z)
    ensures Readable(Minus(Sum([Name(u), Name(v), Name(w)]), Name(z)))
    ensures Readable(Sum([Name(u), Name(v)])) && Readable(Minus(Sum([Name(u)]), Name(z)))
  {
    NameFactor(u);
    NameFactor(v);
    NameFactor(w);
    MinusReadable([Name(u), Name(v), Name(w)], z);
    SumReadable([Name(u), Name(v)]);
    MinusReadable([Name(u)], z);
  }

  lemma ResultsReadable()
    ensures GoodLines(ResultLines())
  {
    forall i | 0 <= i < 16 ensures GoodLine(ResultLines()[i]) {
      IdGood("r", i);
      var j := if i < 8 then i else i - 8;
      ResultReadable(j);
    }
  }

  lemma ResultReadable(j: nat)
    requires j < 8
    ensures Readable(LowColumn(j)) && Readable(HighColumn(j))
  {
    IdGood("l", j);
    IdGood("h", j);
    IdGood("s", j);
    IdGood("l", j + 8);
    IdGood("h", j + 8);
    IdGood("s", j + 8);
    ColumnReadableAt(Id("l", j), Id("h", j), Id("s", j + 8), Id("l", j + 8));
    ColumnReadableAt(Id("s", j), Id("h", j + 8), Id("s", j + 8), Id("l", j));
  }

  lemma CarryLinesReadable(x: string, r: string)
    requires Variable(x) && Variable(r) && !ParamName(r)
    ensures GoodLines(CarryLines(x, r))
  {
    WordVariable("c");
    CarryReadable(x, "c");
  }

  lemma IncrementReadable(r: string, x: string)
    requires Variable(x) && Variable(r) && !ParamName(r)
    ensures GoodLines([Line(r, Plus(Name(x), Name("c")), false)])
  {
    WordVariable("c");
    PairReadable(x, "c");
  }

  lemma StepReadable(cols: seq<string>, i: nat)
    requires |cols| == 16 && Variables(cols) && i < 16
    ensures GoodLines(StepLines(cols, i))
  {
    var r := Id("r", i);
    IdGood("r", i);
    IncrementReadable(r, cols[i]);
    CarryLinesReadable(cols[0], r);
    CarryLinesReadable(r, r);
    GoodAppend([Line(r, Plus(Name(cols[i]), Name("c")), false)], CarryLines(r, r));
  }

  lemma {:induction false} ChainReadable(cols: seq<string>, n: nat)
    requires |cols| == 16 && Variables(cols) && n <= 16
    ensures GoodLines(ChainLines(cols, n))
  {
    if n > 0 {
      ChainReadable(cols, n - 1);
      StepReadable(cols, n - 1);
      GoodAppend(ChainLines(cols, n - 1), StepLines(cols, n - 1));
    }
  }

  lemma CarryOutReadable(i: nat)
    requires i < 15
    ensures GoodLines(CarryOutLines(i))
  {
    IdGood("r", i);
    IdGood("r", i + 1);
    CarryLinesReadable(Id("r", i), Id("r", i));
    IncrementReadable(Id("r", i + 1), Id("r", i + 1));
    GoodAppend(CarryLines(Id("r", i), Id("r", i)), [IncrementLine(Id("r", i + 1))]);
  }

  lemma FoldReadable(i: nat, j: nat)
    requires i < 16 && j < 16
    ensures GoodLines(FoldLines(i, j))
  {
    IdGood("r", i);
    IdGood("r", j);
    IncrementReadable(Id("r", i), Id("r", i));
    IncrementReadable(Id("r", j), Id("r", j));
    GoodAppend([IncrementLine(Id("r", i))], [IncrementLine(Id("r", j))]);
    assert FoldLines(i, j) == [IncrementLine(Id("r", i))] + [IncrementLine(Id("r", j))];
  }

  lemma SerialReadable(cols: seq<string>)
    requires |cols| == 16 && Variables(cols)
    ensures GoodLines(SerialLines(cols))
  {
    ChainReadable(cols, |cols|);
    FoldReadable(0, 8);
    CarryOutReadable(0);
    CarryOutReadable(8);
    GoodAppend(ChainLines(cols, |cols|), FoldLines(0, 8));
    GoodAppend(ChainLines(cols, |cols|) + FoldLines(0, 8), CarryOutLines(0));
    GoodAppend(ChainLines(cols, |cols|) + FoldLines(0, 8) + CarryOutLines(0), CarryOutLines(8));
  }

  lemma CarriesReadable(xs: seq<string>, c: string, q: string)
    requires |xs| == 16 && Variables(xs)
    ensures GoodLines(CarryOf(xs, c)) && GoodLines(RemainderOf(xs, c, q))
  {
    forall i | 0 <= i < 16 ensures GoodLine(CarryOf(xs, c)[i]) && GoodLine(RemainderOf(xs, c, q)[i]) {
      IdGood(c, i);
      IdGood(q, i);
      CarryReadable(xs[i], Id(c, i));
    }
  }

  lemma IncomingReadable(c: string, q: string, out: string)
    ensures GoodLines(IncomingOf(c, q, out))
  {
    forall i | 0 <= i < 16 ensures GoodLine(IncomingOf(c, q, out)[i]) {
      IdGood(out, i);
      IdGood(q, i);
      IdGood(c, Previous(i));
      IdGood(c, 15);
      NameFactor(Id(q, i));
      NameFactor(Id(c, Previous(i)));
      NameFactor(Id(c, 15));
      SumReadable(IncomingTerms(c, q, i));
    }
  }

  lemma ParallelReadable(xs: seq<string>, c: string, q: string, out: string)
    requires |xs| == 16 && Variables(xs)
    ensures GoodLines(ParallelLines(xs, c, q, out))
  {
    CarriesReadable(xs, c, q);
    IncomingReadable(c, q, out);
    GoodAppend(CarryOf(xs, c), RemainderOf(xs, c, q));
    GoodAppend(CarryOf(xs, c) + RemainderOf(xs, c, q), IncomingOf(c, q, out));
  }

  lemma EntriesReadable(kind: Linear)
    requires kind != CarryKernel
    ensures GoodLines(EntryLines(kind))
  {
    forall i | 0 <= i < 16 ensures GoodLine(EntryLines(kind)[i]) {
      IdGood("x", i);
      IdGood("a", i);
      IdGood("b", i);
      WordVariable("k");
      PairReadable(Id("a", i), Id("b", i));
      PairReadable(Id("a", i), "k");
    }
  }

  lemma LinearReadable(kind: Linear)
    ensures GoodLines(LinearLines(kind))
  {
    FamilyVariables("a", 16);
    FamilyVariables("x", 16);
    FamilyVariables("y", 16);
    if kind == CarryKernel {
      ParallelReadable(Names16("a"), "c", "q", "r");
    } else {
      EntriesReadable(kind);
      ParallelReadable(Names16("x"), "c", "q", "y");
      ParallelReadable(Names16("y"), "d", "e", "r");
      ParallelReadable(Names16("x"), "c", "q", "r");
      GoodAppend(EntryLines(kind), ParallelLines(Names16("x"), "c", "q", "r"));
      GoodAppend(EntryLines(kind), ParallelLines(Names16("x"), "c", "q", "y"));
      GoodAppend(EntryLines(kind) + ParallelLines(Names16("x"), "c", "q", "y"), ParallelLines(Names16("y"), "d", "e", "r"));
    }
  }

  lemma NumberedDoubling(x: seq<string>, q: string, lo: nat)
    requires |x| == 8 && lo + 8 <= 16 && forall i :: 0 <= i < 8 ==> x[i] == Id(q, lo + i)
    ensures Doubling(x)
  {
    forall i | 0 <= i < 8 ensures Variable(x[i]) && Variable("d" + x[i]) && !ParamName("d" + x[i]) {
      IdGood(q, lo + i);
      LongerPrefix("d", q, lo + i);
      IdGood("d" + q, lo + i);
    }
  }

  lemma HalvesReadable(square: bool)
    ensures GoodLines(HalfLines(square))
  {
    FamilyVariables("a", 16);
    FamilyVariables("b", 16);
    SumsReadable("aa", Names16("a"));
    SumsReadable("bb", Names16("b"));
    GoodAppend(SumLines("aa", Names16("a")), if square then [] else SumLines("bb", Names16("b")));
  }

  lemma ThreeReadable(square: bool)
    ensures GoodLines(LowLines(square)) && GoodLines(HighLines(square)) && GoodLines(MiddleLines(square))
  {
    var a, b := Names16("a"), Names16(Other(square));
    var aa, bb := Family("aa", 8), Family(Other(square) + Other(square), 8);
    FamilyVariables(Other(square), 16);
    FamilyVariables(Other(square) + Other(square), 8);
    NumberedDoubling(a[..8], "a", 0);
    NumberedDoubling(a[8..], "a", 8);
    NumberedDoubling(aa, "aa", 0);
    var n := |aa| + |bb| - 1;
    ColumnsReadable("l", a[..8], b[..8], square, n);
    ColumnsReadable("h", a[8..], b[8..], square, n);
    ColumnsReadable("s", aa, bb, square, n);
  }

  lemma ProductReadable(square: bool)
    ensures GoodLines(ProductLines(square))
  {
    HalvesReadable(square);
    ThreeReadable(square);
    ResultsReadable();
    FamilyVariables("r", 16);
    SerialReadable(Names16("r"));
    SixGood(HalfLines(square), LowLines(square), HighLines(square), MiddleLines(square), ResultLines(), SerialLines(Names16("r")));
  }

  lemma SixGood(a: Lines, b: Lines, c: Lines, d: Lines, e: Lines, f: Lines)
    requires GoodLines(a) && GoodLines(b) && GoodLines(c) && GoodLines(d) && GoodLines(e) && GoodLines(f)
    ensures GoodLines(a + b + c + d + e + f)
  {
    GoodAppend(a, b);
    GoodAppend(a + b, c);
    GoodAppend(a + b + c, d);
    GoodAppend(a + b + c + d, e);
    GoodAppend(a + b + c + d + e, f);
  }
}
