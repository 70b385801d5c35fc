/** The reader's translation of a kernel function into indexed statements: scoped `let` bindings
    with shadowing become positions, and every index refers backwards. The arithmetic is a
    parameter, so exact and wrapping integers are both covered. */
module KernelSsa {
  import opened Wrappers
  import opened KernelProgram
  import opened KernelSyntax

  const LIMBS: nat := 16

  datatype Kind = IntArray | Scalar

  datatype Param = Param(name: string, kind: Kind)

  datatype Let = Let(name: string, rhs: Raw)

  datatype Store = Store(target: string, index: nat, value: Raw)

  /** What `parse_function` returns. */
  datatype Function = Function(params: seq<Param>, wide: bool, lets: seq<Let>, stores: seq<Store>)

  datatype Input = Limb(param: string, index: nat) | ScalarInput(param: string)

  datatype Ssa =
    | Var(i: nat)
    | Lit(n: int)
    | Bin(op: Op, a: Ssa, b: Ssa)
    | Amount(op: Op, a: Ssa, k: nat)

  datatype Kernel = Kernel(inputs: seq<Input>, stmts: seq<Ssa>, outputs: seq<nat>)

  /** Arithmetic on the kernel's integers: exact, wrapping, or any other. */
  datatype Arithmetic = Arithmetic(bin: (Op, int, int) -> int, shift: (Op, int, int) -> int)

  type Arrays = map<string, seq<int>>

  // ---------------------------------------------------------------- the source's meaning

  /** Value of an expression in a scope; what the reader rejects counts as 0. */
  function Value(m: Arithmetic, e: Raw, env: Env): int {
    match e
    case RName(id) => if id in env then env[id] else 0
    case RInt(n, _) => n
    case RBin(op, a, b) =>
      if op == ShiftRight || op == ShiftLeft
      then m.shift(op, Value(m, a, env), if b.RInt? then b.value else 0)
      else m.bin(op, Value(m, a, env), Value(m, b, env))
    case RLoad(_, _) => 0
    case ROfInt(_) => 0
    case RToInt(_) => 0
  }

  /** A load, with or without of_int around it. */
  function LoadOf(wide: bool, e: Raw): Raw {
    if wide && e.ROfInt? then e.e else e
  }

  function Element(arrays: Arrays, param: string, index: nat): int {
    if param in arrays && index < |arrays[param]| then arrays[param][index] else 0
  }

  /** Right-hand side of a `let`: a load from an array, or arithmetic. */
  function RhsValue(m: Arithmetic, wide: bool, e: Raw, env: Env, arrays: Arrays): int {
    var l := LoadOf(wide, e);
    if l.RLoad? then Element(arrays, l.param, l.index) else Value(m, e, env)
  }

  /** The scope after the first n bindings, each visible from the next one on. */
  function Scope(m: Arithmetic, f: Function, arrays: Arrays, scalars: Env, n: nat): Env
    requires n <= |f.lets|
  {
    if n == 0 then scalars
    else
      var env := Scope(m, f, arrays, scalars, n - 1);
      env[f.lets[n - 1].name := RhsValue(m, f.wide, f.lets[n - 1].rhs, env, arrays)]
  }

  function StoredName(e: Raw): string {
    if e.RName? then e.id else if e.RToInt? && e.e.RName? then e.e.id else ""
  }

  function StoredValue(e: Raw, env: Env): int {
    if StoredName(e) in env then env[StoredName(e)] else 0
  }

  /** Contents of `out` after the first n stores. */
  function Stored(f: Function, env: Env, out: seq<int>, n: nat): (r: seq<int>)
    requires n <= |f.stores|
    ensures |r| == |out|
  {
    if n == 0 then out
    else
      var s, before := f.stores[n - 1], Stored(f, env, out, n - 1);
      if s.index < |before| then before[s.index := StoredValue(s.value, env)] else before
  }

  // ---------------------------------------------------------------- indexed form

  function SsaValue(m: Arithmetic, e: Ssa, vals: seq<int>): int {
    match e
    case Var(i) => if i < |vals| then vals[i] else 0
    case Lit(n) => n
    case Bin(op, a, b) => m.bin(op, SsaValue(m, a, vals), SsaValue(m, b, vals))
    case Amount(op, a, k) => m.shift(op, SsaValue(m, a, vals), k)
  }

  /** Every index in the expression is below n. */
  predicate Backwards(e: Ssa, n: nat) {
    match e
    case Var(i) => i < n
    case Lit(_) => true
    case Bin(_, a, b) => Backwards(a, n) && Backwards(b, n)
    case Amount(_, a, _) => Backwards(a, n)
  }

  function InputValue(i: Input, arrays: Arrays, scalars: Env): int {
    match i
    case Limb(param, index) => Element(arrays, param, index)
    case ScalarInput(param) => if param in scalars then scalars[param] else 0
  }

  function InputValues(inputs: seq<Input>, arrays: Arrays, scalars: Env): (v: seq<int>)
    ensures |v| == |inputs|
  {
    seq(|inputs|, i requires 0 <= i < |inputs| => InputValue(inputs[i], arrays, scalars))
  }

  /** The values after the first n statements. */
  function Values(m: Arithmetic, k: Kernel, arrays: Arrays, scalars: Env, n: nat): (v: seq<int>)
    requires n <= |k.stmts|
    ensures |v| == |k.inputs| + n
  {
    if n == 0 then InputValues(k.inputs, arrays, scalars)
    else
      var v := Values(m, k, arrays, scalars, n - 1);
      v + [SsaValue(m, k.stmts[n - 1], v)]
  }

  predicate WellIndexed(k: Kernel) {
    && (forall n :: 0 <= n < |k.stmts| ==> Backwards(k.stmts[n], |k.inputs| + n))
    && |k.outputs| == LIMBS && forall i :: 0 <= i < LIMBS ==> k.outputs[i] < |k.inputs| + |k.stmts|
  }

  /** The sixteen stored values. */
  function Outputs(m: Arithmetic, k: Kernel, arrays: Arrays, scalars: Env): (r: seq<int>)
    requires WellIndexed(k)
    ensures |r| == LIMBS
  {
    var v := Values(m, k, arrays, scalars, |k.stmts|);
    seq(LIMBS, i requires 0 <= i < LIMBS => v[k.outputs[i]])
  }

  // ---------------------------------------------------------------- translating one expression

  /** `check_arith`: no loads or conversions inside, literal shift amounts in range, literals of
      the right integer type. */
  predicate CheckArith(e: Raw, wide: bool) {
    match e
    case RName(_) => true
    case RInt(_, w) => w == wide
    case RBin(op, a, b) =>
      if op == ShiftRight || op == ShiftLeft
      then CheckArith(a, wide) && b.RInt? && !b.wide && 0 <= b.value < if wide then 63 else 62
      else CheckArith(a, wide) && CheckArith(b, wide)
    case RLoad(_, _) => false
    case ROfInt(_) => false
    case RToInt(_) => false
  }

  /** `ssa`: names become positions. */
  function Translate(e: Raw, wide: bool, index: map<string, nat>): Option<Ssa>
    requires CheckArith(e, wide)
  {
    match e
    case RName(id) => if id in index then Some(Var(index[id])) else None
    case RInt(n, _) => Some(Lit(n))
    case RBin(op, a, b) =>
      if op == ShiftRight || op == ShiftLeft then
        match Translate(a, wide, index)
        case None => None
        case Some(x) => Some(Amount(op, x, b.value))
      else
        match Translate(a, wide, index)
        case None => None
        case Some(x) =>
          match Translate(b, wide, index)
          case None => None
          case Some(y) => Some(Bin(op, x, y))
  }

  /** The positions hold what the scope holds. */
  predicate Mirrors(index: map<string, nat>, env: Env, vals: seq<int>) {
    forall v :: v in index ==> v in env && index[v] < |vals| && vals[index[v]] == env[v]
  }

  lemma {:induction false} TranslateSound(m: Arithmetic, e: Raw, wide: bool, index: map<string, nat>, env: Env, vals: seq<int>)
    requires CheckArith(e, wide) && Mirrors(index, env, vals) && Translate(e, wide, index).Some?
    ensures Backwards(Translate(e, wide, index).value, |vals|)
    ensures SsaValue(m, Translate(e, wide, index).value, vals) == Value(m, e, env)
  {
    match e
    case RName(_) =>
    case RInt(_, _) =>
    case RBin(op, a, b) =>
      TranslateSound(m, a, wide, index, env, vals);
      if op != ShiftRight && op != ShiftLeft {
        TranslateSound(m, b, wide, index, env, vals);
      }
  }

  function RawNames(e: Raw): set<string> {
    match e
    case RName(id) => {id}
    case RInt(_, _) => {}
    case RBin(op, a, b) => if op == ShiftRight || op == ShiftLeft then RawNames(a) else RawNames(a) + RawNames(b)
    case RLoad(_, _) => {}
    case ROfInt(_) => {}
    case RToInt(_) => {}
  }

  /** The translation exists exactly when every name is bound. */
  lemma {:induction false} TranslateDefined(e: Raw, wide: bool, index: map<string, nat>)
    requires CheckArith(e, wide)
    ensures Translate(e, wide, index).Some? <==> RawNames(e) <= index.Keys
  {
    match e
    case RName(_) =>
    case RInt(_, _) =>
    case RBin(op, a, b) =>
      TranslateDefined(a, wide, index);
      if op != ShiftRight && op != ShiftLeft {
        TranslateDefined(b, wide, index);
      }
  }

  // ---------------------------------------------------------------- what the reader accepts

  function ParamNames(params: seq<Param>): set<string> {
    set p | p in params :: p.name
  }

  function ScalarNames(params: seq<Param>): set<string> {
    set p | p in params && p.kind == Scalar :: p.name
  }

  predicate Binder(f: Function, name: string) {
    name !in ParamNames(f.params) && Variable(name)
  }

  predicate IsLoad(f: Function, i: nat)
    requires i < |f.lets|
  {
    LoadOf(f.wide, f.lets[i].rhs).RLoad?
  }

  /** The first binding from i on that is not a load. */
  function LoadCount(f: Function, i: nat): (n: nat)
    requires i <= |f.lets|
    ensures i <= n <= |f.lets|
    decreases |f.lets| - i
  {
    if i < |f.lets| && IsLoad(f, i) then LoadCount(f, i + 1) else i
  }

  function LoadInput(f: Function, i: nat): Input
    requires i < |f.lets| && IsLoad(f, i)
  {
    var l := LoadOf(f.wide, f.lets[i].rhs);
    Limb(l.param, l.index)
  }

  /** A load of a limb of an input array that no earlier binding loads. */
  predicate GoodLoad(f: Function, i: nat)
    requires i < |f.lets|
  {
    && IsLoad(f, i) && (f.wide ==> f.lets[i].rhs.ROfInt?) && Binder(f, f.lets[i].name)
    && var l := LoadInput(f, i);
       && Param(l.param, IntArray) in f.params && l.param != "out" && l.index < LIMBS
       && forall j :: 0 <= j < i && IsLoad(f, j) ==> LoadInput(f, j) != l
  }

  function LetNames(f: Function, i: nat): set<string>
    requires i <= |f.lets|
  {
    if i == 0 then {} else LetNames(f, i - 1) + {f.lets[i - 1].name}
  }

  /** Arithmetic of the right type on names bound before. */
  predicate GoodStatement(f: Function, i: nat)
    requires i < |f.lets|
  {
    && CheckArith(f.lets[i].rhs, f.wide) && Binder(f, f.lets[i].name)
    && RawNames(f.lets[i].rhs) <= LetNames(f, i) + ScalarNames(f.params)
  }

  predicate StoredForm(e: Raw, wide: bool) {
    if wide then e.RToInt? && e.e.RName? else e.RName?
  }

  /** A store of a bound name into a limb of `out` that no earlier store writes. */
  predicate GoodStore(f: Function, n: nat)
    requires n < |f.stores|
  {
    var s := f.stores[n];
    && s.target == "out" && s.index < LIMBS && StoredForm(s.value, f.wide)
    && StoredName(s.value) in LetNames(f, |f.lets|) + ScalarNames(f.params)
    && forall l :: 0 <= l < n ==> f.stores[l].index != s.index
  }

  predicate StoresLimb(f: Function, i: nat, n: nat)
    requires n <= |f.stores|
  {
    exists l :: 0 <= l < n && f.stores[l].index == i
  }

  /** Computations on bound names, then one store of every limb. */
  predicate GoodTail(f: Function) {
    && (forall i :: LoadCount(f, 0) <= i < |f.lets| ==> GoodStatement(f, i))
    && (forall n :: 0 <= n < |f.stores| ==> GoodStore(f, n))
    && forall i :: 0 <= i < LIMBS ==> StoresLimb(f, i, |f.stores|)
  }

  /** Loads, then computations, then one store of every limb. */
  predicate Acceptable(f: Function) {
    && !(f.wide && exists p :: p in f.params && p.kind == Scalar)
    && (forall i :: 0 <= i < LoadCount(f, 0) ==> GoodLoad(f, i))
    && GoodTail(f)
  }

  /** `SPEC`: the arithmetic of every kernel and its parameters after `out`. */
  function SpecOf(name: string): Option<(bool, seq<Param>)> {
    var a, b := Param("a", IntArray), Param("b", IntArray);
    if name == "mul" then Some((true, [a, b]))
    else if name == "sq" then Some((true, [a]))
    else if name == "add" || name == "sub" then Some((false, [a, b]))
    else if name == "mul_small" then Some((false, [a, Param("k", Scalar)]))
    else if name == "carry" then Some((false, [a]))
    else None
  }

  predicate MeetsSpec(name: string, f: Function) {
    SpecOf(name).Some? && |f.params| > 0 && (f.wide, f.params[1..]) == SpecOf(name).value
  }

  // ---------------------------------------------------------------- resolve

  /** Progress of `resolve`: the translated prefix means what the source prefix means. */
  ghost predicate Agrees(m: Arithmetic, f: Function, arrays: Arrays, scalars: Env, n: nat,
                         k: Kernel, index: map<string, nat>)
  {
    && n <= |f.lets|
    && (forall i :: 0 <= i < |k.stmts| ==> Backwards(k.stmts[i], |k.inputs| + i))
    && Mirrors(index, Scope(m, f, arrays, scalars, n), Values(m, k, arrays, scalars, |k.stmts|))
  }

  lemma {:induction false} ValuesPrefix(m: Arithmetic, k: Kernel, l: Kernel, arrays: Arrays, scalars: Env, n: nat)
    requires k.inputs == l.inputs && n <= |k.stmts| && n <= |l.stmts| && k.stmts[..n] == l.stmts[..n]
    ensures Values(m, k, arrays, scalars, n) == Values(m, l, arrays, scalars, n)
  {
    if n > 0 {
      assert k.stmts[..n][..n - 1] == k.stmts[..n - 1] && l.stmts[..n][..n - 1] == l.stmts[..n - 1];
      assert k.stmts[n - 1] == k.stmts[..n][n - 1] && l.stmts[n - 1] == l.stmts[..n][n - 1];
      ValuesPrefix(m, k, l, arrays, scalars, n - 1);
    }
  }

  lemma LoadStep(m: Arithmetic, f: Function, arrays: Arrays, scalars: Env, n: nat, k: Kernel, index: map<string, nat>, i: Input)
    requires Agrees(m, f, arrays, scalars, n, k, index) && n < |f.lets| && k.stmts == []
    requires i.Limb? && LoadOf(f.wide, f.lets[n].rhs) == RLoad(i.param, i.index)
    ensures Agrees(m, f, arrays, scalars, n + 1, k.(inputs := k.inputs + [i]), index[f.lets[n].name := |k.inputs|])
  {
    assert InputValues(k.inputs + [i], arrays, scalars) == InputValues(k.inputs, arrays, scalars) + [InputValue(i, arrays, scalars)];
  }

  lemma {:induction false} ScopeKeepsScalars(m: Arithmetic, f: Function, arrays: Arrays, scalars: Env, n: nat, p: string)
    requires n <= |f.lets| && p in scalars && forall i :: 0 <= i < n ==> f.lets[i].name != p
    ensures p in Scope(m, f, arrays, scalars, n) && Scope(m, f, arrays, scalars, n)[p] == scalars[p]
  {
    if n > 0 {
      ScopeKeepsScalars(m, f, arrays, scalars, n - 1, p);
    }
  }

  lemma ScalarStep(m: Arithmetic, f: Function, arrays: Arrays, scalars: Env, n: nat, k: Kernel, index: map<string, nat>, p: string)
    requires Agrees(m, f, arrays, scalars, n, k, index) && k.stmts == [] && p in scalars
    requires forall i :: 0 <= i < n ==> f.lets[i].name != p
    ensures Agrees(m, f, arrays, scalars, n, k.(inputs := k.inputs + [ScalarInput(p)]), index[p := |k.inputs|])
  {
    ScopeKeepsScalars(m, f, arrays, scalars, n, p);
    var i := ScalarInput(p);
    assert InputValues(k.inputs + [i], arrays, scalars) == InputValues(k.inputs, arrays, scalars) + [InputValue(i, arrays, scalars)];
  }

  lemma StatementStep(m: Arithmetic, f: Function, arrays: Arrays, scalars: Env, n: nat, k: Kernel, index: map<string, nat>, s: Ssa)
    requires Agrees(m, f, arrays, scalars, n, k, index) && n < |f.lets| && CheckArith(f.lets[n].rhs, f.wide)
    requires Translate(f.lets[n].rhs, f.wide, index) == Some(s)
    ensures Agrees(m, f, arrays, scalars, n + 1, k.(stmts := k.stmts + [s]),
                   index[f.lets[n].name := |k.inputs| + |k.stmts|])
  {
    var l := k.(stmts := k.stmts + [s]);
    var vals := Values(m, k, arrays, scalars, |k.stmts|);
    assert l.stmts[..|k.stmts|] == k.stmts[..|k.stmts|];
    ValuesPrefix(m, l, k, arrays, scalars, |k.stmts|);
    TranslateSound(m, f.lets[n].rhs, f.wide, index, Scope(m, f, arrays, scalars, n), vals);
  }

  /** Until the first computation, every binding so far is a good load and an input. */
  predicate Loaded(f: Function, n: nat, k: Kernel, index: map<string, nat>) {
    && n <= |f.lets| && LoadCount(f, n) == LoadCount(f, 0)
    && k.stmts == [] && |k.inputs| == n && index.Keys == LetNames(f, n)
    && forall i :: 0 <= i < n ==> GoodLoad(f, i) && k.inputs[i] == LoadInput(f, i)
  }

  /** `resolve`'s conditions on a load, given the inputs collected so far. */
  predicate LoadAllowed(f: Function, n: nat, inputs: seq<Input>)
    requires n < |f.lets| && IsLoad(f, n)
  {
    var l := LoadInput(f, n);
    && (f.wide ==> f.lets[n].rhs.ROfInt?) && Param(l.param, IntArray) in f.params && l.param != "out"
    && l.index < LIMBS && l !in inputs && Binder(f, f.lets[n].name)
  }

  lemma AllowedIsGood(f: Function, n: nat, k: Kernel, index: map<string, nat>)
    requires Loaded(f, n, k, index) && n < |f.lets| && IsLoad(f, n)
    ensures LoadAllowed(f, n, k.inputs) <==> GoodLoad(f, n)
  {
    var l := LoadInput(f, n);
    if l in k.inputs {
      var j :| 0 <= j < n && k.inputs[j] == l;
      assert GoodLoad(f, j);
    }
    if j :| 0 <= j < n && IsLoad(f, j) && LoadInput(f, j) == l {
      assert GoodLoad(f, j) && k.inputs[j] == l;
    }
  }

  lemma LoadedNext(f: Function, n: nat, k: Kernel, index: map<string, nat>)
    requires Loaded(f, n, k, index) && n < |f.lets| && GoodLoad(f, n)
    ensures Loaded(f, n + 1, k.(inputs := k.inputs + [LoadInput(f, n)]), index[f.lets[n].name := n])
  {
  }

  lemma RefusedLoad(f: Function, n: nat)
    requires n < |f.lets| && LoadCount(f, n) == LoadCount(f, 0) && IsLoad(f, n) && !GoodLoad(f, n)
    ensures !Acceptable(f)
  {
    assert n < LoadCount(f, 0);
  }

  /** The loads at the head of the function. */
  method ResolveLoads(f: Function, ghost m: Arithmetic, ghost arrays: Arrays, ghost scalars: Env)
    returns (ok: bool, n: nat, k: Kernel, index: map<string, nat>)
    ensures ok ==> Loaded(f, n, k, index) && n == LoadCount(f, 0) && Agrees(m, f, arrays, scalars, n, k, index)
    ensures !ok ==> !Acceptable(f)
  {
    k, index, n, ok := Kernel([], [], []), map[], 0, true;
    while n < |f.lets|
      invariant ok && Loaded(f, n, k, index) && Agrees(m, f, arrays, scalars, n, k, index)
    {
      if !IsLoad(f, n) {
        return;
      }
      AllowedIsGood(f, n, k, index);
      if !LoadAllowed(f, n, k.inputs) {
        RefusedLoad(f, n);
        return false, n, k, index;
      }
      var input := LoadInput(f, n);
      LoadStep(m, f, arrays, scalars, n, k, index, input);
      LoadedNext(f, n, k, index);
      index := index[f.lets[n].name := n];
      k := k.(inputs := k.inputs + [input]);
      n := n + 1;
    }
  }

  lemma NotRebound(f: Function, n: nat, p: Param)
    requires n <= |f.lets| && p in f.params && forall i :: 0 <= i < n ==> GoodLoad(f, i)
    ensures forall i :: 0 <= i < n ==> f.lets[i].name != p.name
  {
    assert p.name in ParamNames(f.params);
    forall i | 0 <= i < n ensures f.lets[i].name != p.name {
      assert GoodLoad(f, i);
    }
  }

  /** The int parameters, after the loads. */
  method ResolveScalars(f: Function, n: nat, k0: Kernel, index0: map<string, nat>,
                        ghost m: Arithmetic, ghost arrays: Arrays, ghost scalars: Env)
    returns (k: Kernel, index: map<string, nat>)
    requires Agrees(m, f, arrays, scalars, n, k0, index0) && k0.stmts == []
    requires forall i :: 0 <= i < n ==> GoodLoad(f, i)
    requires forall p :: p in f.params && p.kind == Scalar ==> p.name in scalars
    ensures Agrees(m, f, arrays, scalars, n, k, index) && k.stmts == [] && k0.inputs <= k.inputs
    ensures index.Keys == index0.Keys + ScalarNames(f.params)
  {
    k, index := k0, index0;
    for i := 0 to |f.params|
      invariant Agrees(m, f, arrays, scalars, n, k, index) && k.stmts == [] && k0.inputs <= k.inputs
      invariant index.Keys == index0.Keys + ScalarNames(f.params[..i])
    {
      var p := f.params[i];
      assert f.params[..i + 1] == f.params[..i] + [p];
      if p.kind == Scalar {
        NotRebound(f, n, p);
        ScalarStep(m, f, arrays, scalars, n, k, index, p.name);
        index := index[p.name := |k.inputs|];
        k := k.(inputs := k.inputs + [ScalarInput(p.name)]);
      }
    }
    assert f.params[..|f.params|] == f.params;
  }

  /** Agreement, with every name bound so far in the index. */
  ghost predicate Resolved(m: Arithmetic, f: Function, arrays: Arrays, scalars: Env, n: nat, k: Kernel, index: map<string, nat>) {
    Agrees(m, f, arrays, scalars, n, k, index) && index.Keys == LetNames(f, n) + ScalarNames(f.params)
  }

  /** One computed statement: it is bound after its right-hand side. */
  method ResolveStatement(f: Function, n: nat, k0: Kernel, index0: map<string, nat>,
                          ghost m: Arithmetic, ghost arrays: Arrays, ghost scalars: Env)
    returns (ok: bool, k: Kernel, index: map<string, nat>)
    requires Resolved(m, f, arrays, scalars, n, k0, index0) && n < |f.lets|
    ensures ok <==> GoodStatement(f, n)
    ensures ok ==> Resolved(m, f, arrays, scalars, n + 1, k, index) && k.inputs == k0.inputs
  {
    k, index := k0, index0;
    var name, rhs := f.lets[n].name, f.lets[n].rhs;
    if !CheckArith(rhs, f.wide) || !Binder(f, name) {
      return false, k, index;
    }
    var s := Translate(rhs, f.wide, index);
    TranslateDefined(rhs, f.wide, index);
    if s.None? {
      return false, k, index;
    }
    StatementStep(m, f, arrays, scalars, n, k, index, s.value);
    index := index[name := |k.inputs| + |k.stmts|];
    k := k.(stmts := k.stmts + [s.value]);
    ok := true;
  }

  /** The computed statements, in order. */
  method ResolveStatements(f: Function, n0: nat, k0: Kernel, index0: map<string, nat>,
                           ghost m: Arithmetic, ghost arrays: Arrays, ghost scalars: Env)
    returns (ok: bool, k: Kernel, index: map<string, nat>)
    requires Resolved(m, f, arrays, scalars, n0, k0, index0)
    ensures ok <==> forall i :: n0 <= i < |f.lets| ==> GoodStatement(f, i)
    ensures ok ==> Resolved(m, f, arrays, scalars, |f.lets|, k, index) && k.inputs == k0.inputs
  {
    k, index, ok := k0, index0, true;
    for n := n0 to |f.lets|
      invariant ok && Resolved(m, f, arrays, scalars, n, k, index) && k.inputs == k0.inputs
      invariant forall i :: n0 <= i < n ==> GoodStatement(f, i)
    {
      ok, k, index := ResolveStatement(f, n, k, index, m, arrays, scalars);
      if !ok {
        return;
      }
    }
  }

  /** The stores so far: which limbs are written, and with the value at which position. */
  ghost predicate StoresFound(f: Function, n: nat, found: seq<Option<nat>>, env: Env, vals: seq<int>, out: seq<int>)
    requires n <= |f.stores| && |out| == LIMBS
  {
    && |found| == LIMBS
    && (forall i :: 0 <= i < LIMBS ==> (found[i].Some? <==> StoresLimb(f, i, n)))
    && forall i :: 0 <= i < LIMBS && found[i].Some? ==>
         found[i].value < |vals| && Stored(f, env, out, n)[i] == vals[found[i].value]
  }

  lemma StoreFound(f: Function, n: nat, found: seq<Option<nat>>, env: Env, vals: seq<int>, out: seq<int>, v: nat)
    requires n < |f.stores| && |out| == LIMBS && StoresFound(f, n, found, env, vals, out)
    requires f.stores[n].index < LIMBS && v < |vals| && vals[v] == StoredValue(f.stores[n].value, env)
    ensures StoresFound(f, n + 1, found[f.stores[n].index := Some(v)], env, vals, out)
  {
    forall i | 0 <= i < LIMBS ensures StoresLimb(f, i, n + 1) <==> StoresLimb(f, i, n) || f.stores[n].index == i {
      if StoresLimb(f, i, n) {
        var l :| 0 <= l < n && f.stores[l].index == i;
        assert 0 <= l < n + 1;
      }
    }
  }

  /** The stores: every limb of `out` exactly once, from a bound variable. */
  method ResolveStores(f: Function, index: map<string, nat>, ghost env: Env, ghost vals: seq<int>, ghost out: seq<int>)
    returns (ok: bool, outputs: seq<nat>)
    requires Mirrors(index, env, vals) && |out| == LIMBS
    requires index.Keys == LetNames(f, |f.lets|) + ScalarNames(f.params)
    ensures ok <==> (forall n :: 0 <= n < |f.stores| ==> GoodStore(f, n))
                    && forall i :: 0 <= i < LIMBS ==> StoresLimb(f, i, |f.stores|)
    ensures ok ==> |outputs| == LIMBS && forall i :: 0 <= i < LIMBS ==>
      outputs[i] < |vals| && Stored(f, env, out, |f.stores|)[i] == vals[outputs[i]]
  {
    var found: seq<Option<nat>> := seq(LIMBS, _ => None);
    for n := 0 to |f.stores|
      invariant StoresFound(f, n, found, env, vals, out)
      invariant forall l :: 0 <= l < n ==> GoodStore(f, l)
    {
      var s := f.stores[n];
      if s.target != "out" || s.index >= LIMBS || found[s.index].Some? || f.wide != s.value.RToInt?
         || !(s.value.RName? || (s.value.RToInt? && s.value.e.RName?)) || StoredName(s.value) !in index {
        assert !GoodStore(f, n);
        return false, [];
      }
      StoreFound(f, n, found, env, vals, out, index[StoredName(s.value)]);
      found := found[s.index := Some(index[StoredName(s.value)])];
    }
    if None in found {
      var i :| 0 <= i < LIMBS && found[i].None?;
      assert !StoresLimb(f, i, |f.stores|);
      return false, [];
    }
    forall i | 0 <= i < LIMBS ensures found[i].Some? {
      assert found[i] in found;
    }
    ok := true;
    outputs := seq(LIMBS, i requires 0 <= i < LIMBS => found[i].value);
  }

  function Finished(k: Kernel, outputs: seq<nat>, ghost m: Arithmetic, ghost arrays: Arrays, ghost scalars: Env): (done: Kernel)
    ensures done.inputs == k.inputs && done.stmts == k.stmts && done.outputs == outputs
    ensures Values(m, done, arrays, scalars, |k.stmts|) == Values(m, k, arrays, scalars, |k.stmts|)
  {
    ValuesPrefix(m, k.(outputs := outputs), k, arrays, scalars, |k.stmts|);
    k.(outputs := outputs)
  }

  ghost predicate SameOutputs(f: Function, k: Kernel, m: Arithmetic, arrays: Arrays, scalars: Env, out: seq<int>)
    requires |out| == LIMBS
  {
    WellIndexed(k) && Outputs(m, k, arrays, scalars) == Stored(f, Scope(m, f, arrays, scalars, |f.lets|), out, |f.stores|)
  }

  /** Statements and stores, once loads and parameters are inputs. */
  method ResolveTail(f: Function, n: nat, k0: Kernel, index0: map<string, nat>,
                     ghost m: Arithmetic, ghost arrays: Arrays, ghost scalars: Env, ghost out: seq<int>)
    returns (r: Option<Kernel>)
    requires Resolved(m, f, arrays, scalars, n, k0, index0) && n == LoadCount(f, 0) && |out| == LIMBS
    ensures r.Some? <==> GoodTail(f)
    ensures r.Some? ==> SameOutputs(f, r.value, m, arrays, scalars, out)
  {
    var ok, k, index := ResolveStatements(f, n, k0, index0, m, arrays, scalars);
    if !ok {
      return None;
    }
    ghost var env, vals := Scope(m, f, arrays, scalars, |f.lets|), Values(m, k, arrays, scalars, |k.stmts|);
    var outputs;
    ok, outputs := ResolveStores(f, index, env, vals, out);
    if !ok {
      return None;
    }
    r := Some(Finished(k, outputs, m, arrays, scalars));
  }

  /** `resolve`: accepts exactly the load-compute-store functions with a kernel's signature. What it accepts has the same
      sixteen outputs in both forms, for every input and every arithmetic, and every index refers
      backwards. */
  method Resolve(name: string, f: Function, ghost m: Arithmetic, ghost arrays: Arrays, ghost scalars: Env, ghost out: seq<int>)
    returns (r: Option<Kernel>)
    requires |out| == LIMBS && forall p :: p in f.params && p.kind == Scalar ==> p.name in scalars
    ensures r.Some? <==> MeetsSpec(name, f) && Acceptable(f)
    ensures r.Some? ==> WellIndexed(r.value)
    ensures r.Some? ==>
      Outputs(m, r.value, arrays, scalars) == Stored(f, Scope(m, f, arrays, scalars, |f.lets|), out, |f.stores|)
  {
    if !MeetsSpec(name, f) || (f.wide && exists p :: p in f.params && p.kind == Scalar) {
      return None;
    }
    var ok, n, k, index := ResolveLoads(f, m, arrays, scalars);
    if !ok {
      return None;
    }
    k, index := ResolveScalars(f, n, k, index, m, arrays, scalars);
    r := ResolveTail(f, n, k, index, m, arrays, scalars, out);
  }

  // ---------------------------------------------------------------- running in place

  /** The contents of the arrays, by parameter. */
  ghost function Contents(heap: map<string, array<int>>): Arrays
    reads set p | p in heap :: heap[p]
  {
    map p | p in heap :: heap[p][..]
  }

  /** Running the function on real arrays, `out` possibly one of its inputs: every load comes
      before every store, so the stored limbs are those of the original contents. */
  method Execute(m: Arithmetic, f: Function, heap: map<string, array<int>>, scalars: Env, out: array<int>)
    modifies out
    ensures out[..] == Stored(f, Scope(m, f, old(Contents(heap)), scalars, |f.lets|), old(out[..]), |f.stores|)
  {
    ghost var before, arrays := out[..], Contents(heap);
    var env := scalars;
    for n := 0 to |f.lets|
      invariant env == Scope(m, f, arrays, scalars, n) && out[..] == before && Contents(heap) == arrays
    {
      var l := LoadOf(f.wide, f.lets[n].rhs);
      var v;
      if l.RLoad? {
        v := if l.param in heap && l.index < heap[l.param].Length then heap[l.param][l.index] else 0;
      } else {
        v := Value(m, f.lets[n].rhs, env);
      }
      env := env[f.lets[n].name := v];
    }
    for n := 0 to |f.stores|
      invariant out[..] == Stored(f, env, before, n)
    {
      var s := f.stores[n];
      if s.index < out.Length {
        out[s.index] := StoredValue(s.value, env);
      }
    }
  }

  /** An accepted function, run in place, leaves the outputs of its indexed form on the original
      contents, whether or not `out` is also an input. */
  method ResolveAndExecute(m: Arithmetic, name: string, f: Function, heap: map<string, array<int>>, scalars: Env, out: array<int>)
    returns (r: Option<Kernel>)
    requires out.Length == LIMBS && forall p :: p in f.params && p.kind == Scalar ==> p.name in scalars
    modifies out
    ensures r.Some? <==> MeetsSpec(name, f) && Acceptable(f)
    ensures r.Some? ==> WellIndexed(r.value) && out[..] == Outputs(m, r.value, old(Contents(heap)), scalars)
  {
    r := Resolve(name, f, m, Contents(heap), scalars, out[..]);
    Execute(m, f, heap, scalars, out);
  }

  // ---------------------------------------------------------------- from the generator to the reader

  function ExactBin(op: Op, x: int, y: int): int {
    if op == Add then x + y else if op == Sub then x - y else x * y
  }

  function ExactShift(op: Op, x: int, k: int): int {
    if k < 0 then 0 else if op == ShiftRight then x / Shift(k) else x * Shift(k)
  }

  /** Unbounded integers. */
  function Exact(): Arithmetic {
    Arithmetic((op, x, y) => ExactBin(op, x, y), (op, x, k) => ExactShift(op, x, k))
  }

  /** The tree the reader sees means what the generator's expression means. */
  lemma {:induction false} ReadMeaning(e: Expr, wide: bool, env: Env)
    requires Names(e) <= env.Keys
    ensures Value(Exact(), ToRaw(e, wide), env) == Eval(e, env)
  {
    match e
    case Name(_) =>
    case Const(_) =>
    case Plus(a, b) =>
      ReadMeaning(a, wide, env);
      ReadMeaning(b, wide, env);
      NodeMeaning(Add, ToRaw(a, wide), ToRaw(b, wide), env);
    case Minus(a, b) =>
      ReadMeaning(a, wide, env);
      ReadMeaning(b, wide, env);
      NodeMeaning(Sub, ToRaw(a, wide), ToRaw(b, wide), env);
    case Times(a, b) =>
      ReadMeaning(a, wide, env);
      ReadMeaning(b, wide, env);
      NodeMeaning(Mul, ToRaw(a, wide), ToRaw(b, wide), env);
    case Sum(terms) => ReadMeaningSum(terms, wide, env);
    case Asr(a, k) =>
      ReadMeaning(a, wide, env);
      ShiftMeaning(ShiftRight, ToRaw(a, wide), k, env);
    case Lsl(a, k) =>
      ReadMeaning(a, wide, env);
      ShiftMeaning(ShiftLeft, ToRaw(a, wide), k, env);
  }

  lemma NodeMeaning(op: Op, a: Raw, b: Raw, env: Env)
    requires op == Add || op == Sub || op == Mul
    ensures Value(Exact(), RBin(op, a, b), env) == ExactBin(op, Value(Exact(), a, env), Value(Exact(), b, env))
  {
  }

  lemma ShiftMeaning(op: Op, a: Raw, k: nat, env: Env)
    requires op == ShiftRight || op == ShiftLeft
    ensures Value(Exact(), RBin(op, a, RInt(k, false)), env) == ExactShift(op, Value(Exact(), a, env), k)
  {
  }

  lemma {:induction false} ReadMeaningSum(terms: seq<Expr>, wide: bool, env: Env)
    requires NamesOf(terms) <= env.Keys
    ensures Value(Exact(), SumToRaw(terms, wide), env) == EvalSum(terms, env)
  {
    var n := |terms| - 1;
    if n == 0 {
      ReadMeaning(terms[0], wide, env);
      assert terms[..0] == [] && EvalSum(terms[..0], env) == 0;
    } else if n > 0 {
      ReadMeaningSum(terms[..n], wide, env);
      ReadMeaning(terms[n], wide, env);
    }
  }
}
