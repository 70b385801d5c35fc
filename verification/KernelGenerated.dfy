/** The six kernels the generator writes: each passes its own check, computes its field operation
    modulo P, and is read back from its text as indexed statements that compute the same. */
module KernelGenerated {
  import opened Wrappers
  import opened Congruence
  import opened Radix
  import opened Prime448
  import opened KernelProgram
  import opened KernelSyntax
  import opened KernelNames
  import opened KernelExec
  import opened KernelBuild
  import opened KernelReadable
  import opened KernelFamilies
  import A = KernelAnalysis
  import S = KernelSsa
  import X = KernelText
  import Chain = KernelChain
  import KP = KernelProduct
  import KL = KernelLinear

  const R: int := Chain.R

  /** The generated kernels: `mul` and `sq`, or one of the linear ones. */
  datatype Kind = Product(square: bool) | Round(linear: Linear)

  function LinesOf(kind: Kind): Lines {
    match kind
    case Product(square) => ProductLines(square)
    case Round(linear) => LinearLines(linear)
  }

  function NameOf(kind: Kind): string {
    match kind
    case Product(square) => if square then "sq" else "mul"
    case Round(AddKernel) => "add"
    case Round(SubKernel) => "sub"
    case Round(SmallKernel) => "mul_small"
    case Round(CarryKernel) => "carry"
  }

  predicate HasB(kind: Kind) {
    kind == Product(false) || kind == Round(AddKernel) || kind == Round(SubKernel)
  }

  predicate HasK(kind: Kind) {
    kind == Round(SmallKernel)
  }

  function OperandsOf(kind: Kind): seq<X.Operand> {
    var a := X.Limbs("a", Names16("a"));
    if HasB(kind) then [a, X.Limbs("b", Names16("b"))] else if HasK(kind) then [a, X.Small("k")] else [a]
  }

  /** What `emit_function` is given. */
  function SourceOf(kind: Kind): X.Source {
    X.Source(NameOf(kind), OperandsOf(kind), kind.Product?, Stmts(LinesOf(kind)), Names16("r"))
  }

  // ---------------------------------------------------------------- inputs

  function InputSet(kind: Kind): set<string> {
    (set v | v in Names16("a")) + (set v | HasB(kind) && v in Names16("b")) + if HasK(kind) then {"k"} else {}
  }

  /** The bound of each input, as `build_product` and `build_linear` declare it. */
  function InputBounds(kind: Kind): (b: Bounds)
    ensures b.Keys == InputSet(kind)
  {
    map v | v in InputSet(kind) ::
      if v == "k" then KL.SMALL else if kind == Round(CarryKernel) then KL.DECODED else A.TIGHT
  }

  /** The largest of them. */
  function InputPeak(kind: Kind): nat {
    if kind == Round(CarryKernel) then KL.DECODED else A.TIGHT
  }

  /** The operation each kernel is for. */
  function Wanted(kind: Kind, a: int, b: int, k: int): int {
    match kind
    case Product(square) => if square then a * a else a * b
    case Round(linear) => KL.EntryValue(linear, a, b, k)
  }

  lemma InputsValued(kind: Kind, env: Env, p: string, b: nat)
    requires env.Keys == InputSet(kind) && (p == "a" || (p == "b" && HasB(kind)))
    requires b == if kind == Round(CarryKernel) then KL.DECODED else A.TIGHT
    ensures Valued(Start(env, InputBounds(kind), InputPeak(kind)), Names16(p), b, Read(env, Names16(p)))
  {
    forall i | 0 <= i < 16 ensures CappedAt(InputBounds(kind), Names16(p)[i], b) {
      IdEnds(p, i);
      assert Names16(p)[i] in InputSet(kind);
    }
  }

  /** The outputs hold tight limbs' worth of the operation on the inputs, modulo P. */
  ghost predicate Computed(kind: Kind, env: Env, after: Env) {
    Cong(Val(R, Read(after, Names16("r"))),
         Wanted(kind, Val(R, Read(env, Names16("a"))), Val(R, Read(env, Names16("b"))), ValueOf(env, "k")), P)
  }

  /** Run from its inputs, a kernel's program is accepted throughout and ends with tight limbs that
      are worth the operation. */
  lemma KernelRuns(kind: Kind, env: Env) returns (t: Full)
    requires env.Keys == InputSet(kind)
    ensures Exec(Start(env, InputBounds(kind), InputPeak(kind)), LinesOf(kind)) == Some(t) && t.peak < LIMIT
    ensures (forall i :: 0 <= i < 16 ==> Chain.TightLimb(t, i)) && Computed(kind, env, t.env)
  {
    var s := Start(env, InputBounds(kind), InputPeak(kind));
    var a, b := Read(env, Names16("a")), Read(env, Names16("b"));
    match kind
    case Product(square) =>
      InputsValued(kind, env, "a", A.TIGHT);
      InputsValued(kind, env, Other(square), A.TIGHT);
      t := KP.ProductSound(s, square, a, Read(env, Names16(Other(square))));
    case Round(linear) =>
      InputsValued(kind, env, "a", if linear == CarryKernel then KL.DECODED else A.TIGHT);
      if HasB(kind) {
        InputsValued(kind, env, "b", A.TIGHT);
      }
      t := KL.LinearSound(s, linear, a, b, ValueOf(env, "k"));
  }

  /** What `check` asks of a kernel, and more: every run computes the operation modulo P. */
  ghost predicate Passes(kind: Kind, env: Env)
    requires env.Keys == InputSet(kind)
  {
    var stmts, exact, inputs := Stmts(LinesOf(kind)), Exacts(LinesOf(kind)), InputBounds(kind);
    && A.Accepted(stmts, exact, inputs.Keys, |stmts|) && A.Scoped(stmts, env.Keys, |stmts|)
    && A.Reported(stmts, exact, inputs, InputPeak(kind), |stmts|).peak < LIMIT
    && (forall v :: v in Names16("r") ==>
          CappedAt(A.Reported(stmts, exact, inputs, InputPeak(kind), |stmts|).bounds, v, A.TIGHT))
    && Computed(kind, env, A.Run(stmts, env, |stmts|))
  }

  /** The analysis accepts every generated kernel, its report is below 2^62 with tight outputs, and
      every run, in or out of the bounds, computes the operation modulo P. */
  lemma KernelCorrect(kind: Kind, env: Env)
    requires env.Keys == InputSet(kind)
    ensures Passes(kind, env)
  {
    var ls := LinesOf(kind);
    var t := KernelRuns(kind, env);
    assert ls[..|ls|] == ls;
    ExecIsAnalysis(ls, env, InputBounds(kind), InputPeak(kind), |ls|, t);
    forall v | v in Names16("r") ensures CappedAt(t.bounds, v, A.TIGHT) {
      var i :| 0 <= i < 16 && Names16("r")[i] == v;
      assert Chain.TightLimb(t, i);
    }
  }

  method Build(kind: Kind) returns (prog: A.Program, outputs: seq<string>)
    ensures fresh(prog) && Wrote(prog, LinesOf(kind)) && outputs == Names16("r")
  {
    match kind {
      case Product(square) =>
        prog, outputs := BuildProduct(square);
      case Round(linear) =>
        prog, outputs := BuildLinear(linear);
    }
  }

  /** A builder, then `check`: no kernel is refused, its native run on inputs within bounds is its
      exact run, and that computes the operation with tight limbs. */
  method Generate(kind: Kind, ghost env: Env) returns (prog: A.Program, outputs: seq<string>, ok: bool)
    requires env.Keys == InputSet(kind) && Within(env, InputBounds(kind))
    ensures fresh(prog) && Wrote(prog, LinesOf(kind)) && outputs == Names16("r") && ok
    ensures A.Scoped(prog.stmts, env.Keys, |prog.stmts|)
    ensures A.RunWrap(prog.stmts, env, |prog.stmts|) == A.Run(prog.stmts, env, |prog.stmts|)
    ensures A.OutputsTight(outputs, A.Run(prog.stmts, env, |prog.stmts|))
    ensures Computed(kind, env, A.Run(prog.stmts, env, |prog.stmts|))
  {
    prog, outputs := Build(kind);
    KernelCorrect(kind, env);
    assert forall v :: v in outputs ==>
      CappedAt(A.Reported(prog.stmts, prog.exact, InputBounds(kind), InputPeak(kind), |prog.stmts|).bounds, v, A.TIGHT);
    ok := A.Check(prog, InputBounds(kind), InputPeak(kind), outputs, env);
  }

  // ---------------------------------------------------------------- the loads of a kernel

  function LimbLoads(p: string): (l: seq<X.Load>)
    ensures |l| == 16
  {
    seq(16, i requires 0 <= i < 16 => X.Load(Id(p, i), p, i))
  }

  lemma NotSeen(loads: seq<X.Load>, p: string, q: string, n: nat, i: nat)
    requires Letters(p) && Letters(q) && n <= 16 && i < 16 && (p != q || n <= i)
    requires loads == LimbLoads(q)[..n]
    ensures !X.Seen(loads, Id(p, i))
  {
    forall j | 0 <= j < n ensures loads[j].id != Id(p, i) {
      IdInjective(q, j, p, i);
    }
  }

  lemma {:induction false} FirstLoads(p: string, n: nat)
    requires Letters(p) && n <= 16
    ensures X.LimbLoads([], p, Names16(p), n) == LimbLoads(p)[..n]
  {
    if n > 0 {
      FirstLoads(p, n - 1);
      NotSeen(LimbLoads(p)[..n - 1], p, p, n - 1, n - 1);
      assert LimbLoads(p)[..n] == LimbLoads(p)[..n - 1] + [X.Load(Id(p, n - 1), p, n - 1)];
    }
  }

  lemma SeenAppend(a: seq<X.Load>, b: seq<X.Load>, v: string)
    ensures X.Seen(a + b, v) <==> X.Seen(a, v) || X.Seen(b, v)
  {
    if X.Seen(a, v) {
      var i :| 0 <= i < |a| && a[i].id == v;
      assert (a + b)[i].id == v;
    }
    if X.Seen(b, v) {
      var i :| 0 <= i < |b| && b[i].id == v;
      assert (a + b)[|a| + i].id == v;
    }
  }

  lemma {:induction false} MoreLoads(p: string, q: string, n: nat)
    requires Letters(p) && Letters(q) && p != q && n <= 16
    ensures X.LimbLoads(LimbLoads(q), p, Names16(p), n) == LimbLoads(q) + LimbLoads(p)[..n]
  {
    if n > 0 {
      MoreLoads(p, q, n - 1);
      assert LimbLoads(q) == LimbLoads(q)[..16];
      NotSeen(LimbLoads(q), p, q, 16, n - 1);
      NotSeen(LimbLoads(p)[..n - 1], p, p, n - 1, n - 1);
      SeenAppend(LimbLoads(q), LimbLoads(p)[..n - 1], Id(p, n - 1));
      assert LimbLoads(p)[..n] == LimbLoads(p)[..n - 1] + [X.Load(Id(p, n - 1), p, n - 1)];
    }
  }

  function LoadsOf(kind: Kind): seq<X.Load> {
    LimbLoads("a") + if HasB(kind) then LimbLoads("b") else []
  }

  /** Every limb of every array operand is loaded once, in order. */
  lemma LoadsAre(kind: Kind)
    ensures X.Loads(OperandsOf(kind)) == LoadsOf(kind)
  {
    var a, b, k := X.Limbs("a", Names16("a")), X.Limbs("b", Names16("b")), X.Small("k");
    assert Letters("a") && Letters("b");
    FirstLoads("a", |Names16("a")|);
    assert [a][..0] == [] && X.Loads([]) == [];
    assert X.Loads([a]) == LimbLoads("a");
    if HasB(kind) {
      MoreLoads("b", "a", |Names16("b")|);
      assert [a, b][..1] == [a] && OperandsOf(kind) == [a, b];
    } else if HasK(kind) {
      assert [a, k][..1] == [a] && OperandsOf(kind) == [a, k];
      assert X.Loads([a, k]) == X.Loads([a]);
    } else {
      assert OperandsOf(kind) == [a];
    }
  }

  /** Entry i of the loads: a limb of a, or of b. */
  lemma LoadAt(kind: Kind, i: nat)
    requires i < |LoadsOf(kind)|
    ensures LoadsOf(kind)[i] == if i < 16 then X.Load(Id("a", i), "a", i) else X.Load(Id("b", i - 16), "b", i - 16)
    ensures i >= 16 ==> HasB(kind)
  {
  }

  // ---------------------------------------------------------------- their texts

  function ParamsOf(kind: Kind): seq<S.Param> {
    var out, a := S.Param("out", S.IntArray), S.Param("a", S.IntArray);
    if HasB(kind) then [out, a, S.Param("b", S.IntArray)] else if HasK(kind) then [out, a, S.Param("k", S.Scalar)] else [out, a]
  }

  lemma ParamsFor(k: X.Source, kind: Kind)
    requires k.operands == OperandsOf(kind)
    ensures X.Params(k) == ParamsOf(kind)
  {
    var ps := X.Params(k);
    assert ps[0] == S.Param("out", S.IntArray) && ps[1] == X.ParamOf(k.operands[0]);
    if |k.operands| == 2 {
      assert ps[2] == X.ParamOf(k.operands[1]);
    }
  }

  lemma BinderFor(k: X.Source, kind: Kind, v: string)
    requires k.operands == OperandsOf(kind) && Variable(v) && !ParamName(v)
    ensures S.Binder(X.FunctionOf(k), v)
  {
    ParamsFor(k, kind);
    forall p | p in ParamsOf(kind) ensures ParamName(p.name) {
    }
  }

  lemma LegalWords(w: string)
    requires w in {"mul", "sq", "add", "sub", "mul_small", "carry", "a", "b", "k"}
    ensures X.Legal(w)
  {
    forall v | v in Keywords(w[0]) ensures v != w {
    }
  }

  lemma LinesReadable(kind: Kind)
    ensures GoodLines(LinesOf(kind))
  {
    match kind
    case Product(square) => ProductReadable(square);
    case Round(linear) => LinearReadable(linear);
  }

  lemma LoadsLegal(kind: Kind)
    ensures X.LegalLoads(X.Loads(OperandsOf(kind)))
  {
    LoadsAre(kind);
    LegalWords("a");
    LegalWords("b");
    forall i | 0 <= i < |LoadsOf(kind)| ensures X.Legal(LoadsOf(kind)[i].id) && X.Legal(LoadsOf(kind)[i].param) {
      LoadAt(kind, i);
      IdGood("a", if i < 16 then i else i - 16);
      IdGood("b", if i < 16 then i else i - 16);
    }
  }

  lemma ParamsDistinct(kind: Kind)
    ensures X.Distinct(ParamsOf(kind)) && forall i :: 0 <= i < |OperandsOf(kind)| ==> X.Legal(OperandsOf(kind)[i].name)
  {
    LegalWords("a");
    LegalWords("b");
    LegalWords("k");
  }

  lemma StmtsReadable(ls: Lines, wide: bool)
    requires GoodLines(ls)
    ensures X.ReadableStmts(Stmts(ls), wide)
  {
    forall i | 0 <= i < |ls| ensures X.ReadableStmt(Stmts(ls)[i], wide) {
      assert GoodLine(ls[i]);
    }
  }

  /** The text of every generated kernel is one the reader groups as meant. */
  lemma KernelEmittable(kind: Kind)
    ensures X.Emittable(SourceOf(kind))
  {
    LegalWords(NameOf(kind));
    ParamsFor(SourceOf(kind), kind);
    ParamsDistinct(kind);
    LoadsLegal(kind);
    LinesReadable(kind);
    StmtsReadable(LinesOf(kind), kind.Product?);
    forall i | 0 <= i < 16 ensures X.Legal(Names16("r")[i]) {
      IdGood("r", i);
    }
  }

  lemma LoadFresh(k: X.Source, kind: Kind, i: nat)
    requires k.operands == OperandsOf(kind) && i < X.LoadTotal(k)
    ensures FreshLoad(k, i)
  {
    LoadsAre(kind);
    ParamsFor(k, kind);
    LoadAt(kind, i);
    IdGood("a", if i < 16 then i else i - 16);
    IdGood("b", if i < 16 then i else i - 16);
    BinderFor(k, kind, LoadsOf(kind)[i].id);
    forall j | 0 <= j < i ensures LoadsOf(kind)[j].param != LoadsOf(kind)[i].param || LoadsOf(kind)[j].index != LoadsOf(kind)[i].index {
      LoadAt(kind, j);
    }
  }

  lemma KernelBindable(k: X.Source, kind: Kind, ls: Lines)
    requires k.operands == OperandsOf(kind) && k.stmts == Stmts(ls) && GoodLines(ls)
    ensures Bindable(k)
  {
    forall i | 0 <= i < X.LoadTotal(k) ensures FreshLoad(k, i) {
      LoadFresh(k, kind, i);
    }
    forall i | 0 <= i < |k.stmts| ensures S.Binder(X.FunctionOf(k), k.stmts[i].name) && ShortShifts(k.stmts[i].rhs) {
      assert GoodLine(ls[i]);
      BinderFor(k, kind, k.stmts[i].name);
    }
  }

  lemma KernelSupplies(k: X.Source, kind: Kind)
    requires k.operands == OperandsOf(kind)
    ensures Supplies(k, InputSet(kind))
  {
    LoadsAre(kind);
    ParamsFor(k, kind);
    forall v | v in InputSet(kind) ensures v in S.ScalarNames(X.Params(k)) || X.Seen(LoadsOf(kind), v) {
      if v in Names16("a") {
        var i :| 0 <= i < 16 && Names16("a")[i] == v;
        assert LoadsOf(kind)[i].id == v;
      } else if HasB(kind) && v in Names16("b") {
        var i :| 0 <= i < 16 && Names16("b")[i] == v;
        assert LoadsOf(kind)[16 + i].id == v;
      } else {
        assert S.Param("k", S.Scalar) in X.Params(k);
      }
    }
  }

  lemma KernelAccepted(kind: Kind, stmts: seq<A.Stmt>, exact: map<nat, int>)
    requires stmts == Stmts(LinesOf(kind)) && exact == Exacts(LinesOf(kind))
    ensures A.Accepted(stmts, exact, InputSet(kind), |stmts|)
    ensures forall v :: v in Names16("r") ==> v in A.Bound(stmts, InputSet(kind), |stmts|)
  {
    var env: Env := map v | v in InputSet(kind) :: 0;
    KernelCorrect(kind, env);
    var r := A.Reported(stmts, exact, InputBounds(kind), InputPeak(kind), |stmts|);
    forall v | v in Names16("r") ensures v in r.bounds {
      assert CappedAt(r.bounds, v, A.TIGHT);
    }
  }

  lemma NoScalars(k: X.Source, kind: Kind)
    requires k.operands == OperandsOf(kind) && kind.Product?
    ensures S.ScalarNames(X.Params(k)) == {}
  {
    ParamsFor(k, kind);
    forall p | p in ParamsOf(kind) ensures p.kind != S.Scalar {
    }
  }

  lemma AcceptableFor(k: X.Source, kind: Kind, exact: map<nat, int>)
    requires k.operands == OperandsOf(kind) && (k.wide ==> kind.Product?) && k.outputs == Names16("r") && Bindable(k)
    requires A.Accepted(k.stmts, exact, InputSet(kind), |k.stmts|)
    requires forall v :: v in Names16("r") ==> v in A.Bound(k.stmts, InputSet(kind), |k.stmts|)
    ensures S.Acceptable(X.FunctionOf(k))
  {
    KernelSupplies(k, kind);
    if k.wide {
      NoScalars(k, kind);
    }
    forall i | 0 <= i < 16 ensures k.outputs[i] in A.Bound(k.stmts, InputSet(kind), |k.stmts|) {
      assert Names16("r")[i] in Names16("r");
    }
    AcceptedIsAcceptable(k, exact, InputSet(kind));
  }

  /** Every kernel has the signature its reader expects of it. */
  lemma SpecMet(k: X.Source, kind: Kind)
    requires k.operands == OperandsOf(kind) && k.name == NameOf(kind) && k.wide == kind.Product?
    ensures S.MeetsSpec(k.name, X.FunctionOf(k))
  {
    ParamsFor(k, kind);
    assert ParamsOf(kind)[1..] == S.SpecOf(NameOf(kind)).value.1;
  }

  /** The reader accepts every kernel the generator writes. */
  lemma KernelAcceptable(kind: Kind)
    ensures S.MeetsSpec(NameOf(kind), X.FunctionOf(SourceOf(kind))) && S.Acceptable(X.FunctionOf(SourceOf(kind)))
  {
    SpecMet(SourceOf(kind), kind);
    var k, ls := SourceOf(kind), LinesOf(kind);
    LinesReadable(kind);
    KernelBindable(k, kind, ls);
    KernelAccepted(kind, Stmts(ls), Exacts(ls));
    AcceptableFor(k, kind, Exacts(ls));
  }

  // ---------------------------------------------------------------- from builder to indexed form

  /** The scope after the first n loads. */
  function Loaded(loads: seq<X.Load>, arrays: S.Arrays, scalars: Env, n: nat): Env
    requires n <= |loads|
  {
    if n == 0 then scalars
    else Loaded(loads, arrays, scalars, n - 1)[loads[n - 1].id := S.Element(arrays, loads[n - 1].param, loads[n - 1].index)]
  }

  lemma {:induction false} ScopeIsLoaded(k: X.Source, arrays: S.Arrays, scalars: Env, n: nat)
    requires n <= X.LoadTotal(k)
    ensures S.Scope(S.Exact(), X.FunctionOf(k), arrays, scalars, n) == Loaded(X.Loads(k.operands), arrays, scalars, n)
  {
    if n > 0 {
      ScopeIsLoaded(k, arrays, scalars, n - 1);
      var l := X.Loads(k.operands)[n - 1];
      assert X.FunctionOf(k).lets[n - 1] == S.Let(l.id, X.LoadBinding(l, k.wide).tree);
    }
  }

  lemma {:induction false} LoadedValue(loads: seq<X.Load>, arrays: S.Arrays, scalars: Env, n: nat, i: nat)
    requires i < n <= |loads| && forall j :: i < j < n ==> loads[j].id != loads[i].id
    ensures var e := Loaded(loads, arrays, scalars, n);
      loads[i].id in e && e[loads[i].id] == S.Element(arrays, loads[i].param, loads[i].index)
    decreases n
  {
    if i < n - 1 {
      LoadedValue(loads, arrays, scalars, n - 1, i);
    }
  }

  lemma {:induction false} LoadedKeys(loads: seq<X.Load>, arrays: S.Arrays, scalars: Env, n: nat, v: string)
    requires n <= |loads|
    ensures v in Loaded(loads, arrays, scalars, n) <==> v in scalars || exists i :: 0 <= i < n && loads[i].id == v
    ensures (forall i :: 0 <= i < n ==> loads[i].id != v) && v in scalars ==> Loaded(loads, arrays, scalars, n)[v] == scalars[v]
  {
    if n > 0 {
      LoadedKeys(loads, arrays, scalars, n - 1, v);
    }
  }

  lemma LoadsDistinct(kind: Kind, i: nat, j: nat)
    requires i < j < |LoadsOf(kind)|
    ensures LoadsOf(kind)[i].id != LoadsOf(kind)[j].id
  {
    LoadAt(kind, i);
    LoadAt(kind, j);
    assert Letters("a") && Letters("b");
    IdInjective(LoadsOf(kind)[i].param, LoadsOf(kind)[i].index, LoadsOf(kind)[j].param, LoadsOf(kind)[j].index);
  }

  /** The arrays and the int a kernel is called with. */
  predicate CalledWith(kind: Kind, arrays: S.Arrays, scalars: Env) {
    && "a" in arrays && |arrays["a"]| == 16 && (HasB(kind) ==> "b" in arrays && |arrays["b"]| == 16)
    && scalars.Keys == if HasK(kind) then {"k"} else {}
  }

  function Scoped(kind: Kind, arrays: S.Arrays, scalars: Env): Env {
    Loaded(LoadsOf(kind), arrays, scalars, |LoadsOf(kind)|)
  }

  lemma ScopedLimb(kind: Kind, arrays: S.Arrays, scalars: Env, i: nat)
    requires i < |LoadsOf(kind)|
    ensures var l := LoadsOf(kind)[i];
      ValueOf(Scoped(kind, arrays, scalars), l.id) == S.Element(arrays, l.param, l.index)
  {
    forall j | i < j < |LoadsOf(kind)| ensures LoadsOf(kind)[j].id != LoadsOf(kind)[i].id {
      LoadsDistinct(kind, i, j);
    }
    LoadedValue(LoadsOf(kind), arrays, scalars, |LoadsOf(kind)|, i);
  }

  /** The loaded limbs are the arrays. */
  lemma ScopedReads(kind: Kind, arrays: S.Arrays, scalars: Env)
    requires CalledWith(kind, arrays, scalars)
    ensures Read(Scoped(kind, arrays, scalars), Names16("a")) == arrays["a"]
    ensures HasB(kind) ==> Read(Scoped(kind, arrays, scalars), Names16("b")) == arrays["b"]
  {
    var e := Scoped(kind, arrays, scalars);
    forall i | 0 <= i < 16 ensures Read(e, Names16("a"))[i] == arrays["a"][i] {
      ScopedLimb(kind, arrays, scalars, i);
      LoadAt(kind, i);
    }
    if HasB(kind) {
      forall i | 0 <= i < 16 ensures Read(e, Names16("b"))[i] == arrays["b"][i] {
        ScopedLimb(kind, arrays, scalars, 16 + i);
        LoadAt(kind, 16 + i);
      }
    }
  }

  lemma ScopedKeys(kind: Kind, arrays: S.Arrays, scalars: Env, v: string)
    requires CalledWith(kind, arrays, scalars)
    ensures v in Scoped(kind, arrays, scalars) <==> v in InputSet(kind)
  {
    var loads := LoadsOf(kind);
    LoadedKeys(loads, arrays, scalars, |loads|, v);
    if v in Scoped(kind, arrays, scalars) && v !in scalars {
      var i :| 0 <= i < |loads| && loads[i].id == v;
      LoadAt(kind, i);
      assert v == if i < 16 then Names16("a")[i] else Names16("b")[i - 16];
    }
    if v in Names16("a") {
      var i :| 0 <= i < 16 && Names16("a")[i] == v;
      assert loads[i].id == v;
    } else if HasB(kind) && v in Names16("b") {
      var i :| 0 <= i < 16 && Names16("b")[i] == v;
      assert loads[16 + i].id == v;
    }
  }

  lemma ScopedScalar(kind: Kind, arrays: S.Arrays, scalars: Env)
    requires CalledWith(kind, arrays, scalars) && HasK(kind)
    ensures ValueOf(Scoped(kind, arrays, scalars), "k") == scalars["k"]
  {
    var loads := LoadsOf(kind);
    forall i | 0 <= i < |loads| ensures loads[i].id != "k" {
      LoadAt(kind, i);
      IdEnds(loads[i].param, loads[i].index);
      assert !EndsInDigit("k");
    }
    LoadedKeys(loads, arrays, scalars, |loads|, "k");
  }

  /** The value an array argument stands for. */
  function Argument(arrays: S.Arrays, p: string): int {
    if p in arrays then Val(R, arrays[p]) else 0
  }

  /** What a call of the kernel should leave, modulo P. */
  function CallResult(kind: Kind, arrays: S.Arrays, scalars: Env): int {
    Wanted(kind, Argument(arrays, "a"), Argument(arrays, "b"), ValueOf(scalars, "k"))
  }

  lemma CallComputes(kind: Kind, arrays: S.Arrays, scalars: Env, after: Env)
    requires CalledWith(kind, arrays, scalars) && Computed(kind, Scoped(kind, arrays, scalars), after)
    ensures Cong(Val(R, Read(after, Names16("r"))), CallResult(kind, arrays, scalars), P)
  {
    ScopedReads(kind, arrays, scalars);
    if HasK(kind) {
      ScopedScalar(kind, arrays, scalars);
    }
  }

  lemma InputsAreScoped(k: X.Source, kind: Kind, arrays: S.Arrays, scalars: Env)
    requires k.operands == OperandsOf(kind) && CalledWith(kind, arrays, scalars)
    ensures X.Inputs(k, arrays, scalars) == Scoped(kind, arrays, scalars)
    ensures X.Inputs(k, arrays, scalars).Keys == InputSet(kind)
  {
    LoadsAre(kind);
    ScopeIsLoaded(k, arrays, scalars, X.LoadTotal(k));
    forall v ensures v in Scoped(kind, arrays, scalars) <==> v in InputSet(kind) {
      ScopedKeys(kind, arrays, scalars, v);
    }
  }

  lemma StmtsCompute(kind: Kind, stmts: seq<A.Stmt>, env: Env)
    requires stmts == Stmts(LinesOf(kind)) && env.Keys == InputSet(kind)
    ensures A.Scoped(stmts, env.Keys, |stmts|) && Computed(kind, env, A.Run(stmts, env, |stmts|))
  {
    KernelCorrect(kind, env);
  }

  lemma ResultsAreRead(k: X.Source, after: Env)
    requires k.outputs == Names16("r")
    ensures X.Results(k, after) == Read(after, Names16("r"))
  {
  }

  /** What the program leaves in its outputs, run from a call's arrays and int. */
  lemma SourceComputes(k: X.Source, kind: Kind, arrays: S.Arrays, scalars: Env)
    requires k.operands == OperandsOf(kind) && k.stmts == Stmts(LinesOf(kind)) && k.outputs == Names16("r")
    requires CalledWith(kind, arrays, scalars)
    ensures A.Scoped(k.stmts, X.Inputs(k, arrays, scalars).Keys, |k.stmts|)
    ensures Cong(Val(R, X.Results(k, A.Run(k.stmts, X.Inputs(k, arrays, scalars), |k.stmts|))), CallResult(kind, arrays, scalars), P)
  {
    InputsAreScoped(k, kind, arrays, scalars);
    var env := X.Inputs(k, arrays, scalars);
    StmtsCompute(kind, k.stmts, env);
    var after := A.Run(k.stmts, env, |k.stmts|);
    CallComputes(kind, arrays, scalars, after);
    ResultsAreRead(k, after);
  }

  method BuildSource(kind: Kind) returns (k: X.Source)
    ensures k == SourceOf(kind)
  {
    var prog, outputs := Build(kind);
    k := X.Source(NameOf(kind), OperandsOf(kind), kind.Product?, prog.stmts, outputs);
  }

  lemma ScalarsGiven(k: X.Source, kind: Kind, arrays: S.Arrays, scalars: Env)
    requires k.operands == OperandsOf(kind) && CalledWith(kind, arrays, scalars)
    ensures forall i :: 0 <= i < |k.operands| && k.operands[i].Small? ==> k.operands[i].name in scalars
  {
  }

  /** Emitting, reading and resolving a kernel whose program is known to compute n. */
  method ReadBack(k: X.Source, ghost arrays: S.Arrays, ghost scalars: Env, ghost n: int) returns (r: Option<S.Kernel>)
    requires X.Emittable(k) && S.MeetsSpec(k.name, X.FunctionOf(k)) && S.Acceptable(X.FunctionOf(k))
    requires A.Scoped(k.stmts, X.Inputs(k, arrays, scalars).Keys, |k.stmts|)
    requires forall i :: 0 <= i < |k.operands| && k.operands[i].Small? ==> k.operands[i].name in scalars
    requires Cong(Val(R, X.Results(k, A.Run(k.stmts, X.Inputs(k, arrays, scalars), |k.stmts|))), n, P)
    ensures r.Some? && S.WellIndexed(r.value) && Cong(Val(R, S.Outputs(S.Exact(), r.value, arrays, scalars)), n, P)
  {
    r := X.EmitReadResolve(k, arrays, scalars);
  }

  /** Built, printed, read and resolved: every kernel is accepted at each step, and the indexed
      statements the reader ends with compute the field operation modulo P. */
  method BuildAndRead(kind: Kind, ghost arrays: S.Arrays, ghost scalars: Env) returns (r: Option<S.Kernel>)
    requires CalledWith(kind, arrays, scalars)
    ensures r.Some? && S.WellIndexed(r.value)
    ensures Cong(Val(R, S.Outputs(S.Exact(), r.value, arrays, scalars)), CallResult(kind, arrays, scalars), P)
  {
    var k := BuildSource(kind);
    KernelEmittable(kind);
    KernelAcceptable(kind);
    SourceComputes(k, kind, arrays, scalars);
    ScalarsGiven(k, kind, arrays, scalars);
    r := ReadBack(k, arrays, scalars, CallResult(kind, arrays, scalars));
  }
}
