/** The generator's interval analysis: which programs it accepts, and why the bounds it reports
    hold of every run, the guarded carry-remainder override included. */
module KernelAnalysis {
  import opened Wrappers
  import opened Radix
  import opened KernelProgram

  datatype Stmt = Stmt(name: string, rhs: Expr)

  /** Latest binding of a name: where, and to what. */
  datatype Def = Def(index: nat, rhs: Expr)

  /** `Program`: statements in order, the names bound, and the claimed exact bounds. */
  class Program {
    var stmts: seq<Stmt>
    var defined: set<string>
    var exact: map<nat, int>

    constructor ()
      ensures stmts == [] && defined == {} && exact == map[]
    {
      stmts, defined, exact := [], {}, map[];
    }

    /** `let`: appends a binding; an override is filed under the statement's index. */
    method Let(name: string, rhs: Expr, bound: Option<int>) returns (id: string)
      modifies this
      ensures id == name && stmts == old(stmts) + [Stmt(name, rhs)] && defined == old(defined) + {name}
      ensures exact == if bound.Some? then old(exact)[|old(stmts)| := bound.value] else old(exact)
    {
      if bound.Some? {
        exact := exact[|stmts| := bound.value];
      }
      stmts := stmts + [Stmt(name, rhs)];
      defined := defined + {name};
      id := name;
    }
  }

  // ---------------------------------------------------------------- runs

  /** Every statement reads only names already bound. */
  predicate Scoped(stmts: seq<Stmt>, inputs: set<string>, i: nat)
    requires i <= |stmts|
  {
    i == 0 || (Scoped(stmts, inputs, i - 1) && Names(stmts[i - 1].rhs) <= Bound(stmts, inputs, i - 1))
  }

  /** The names bound before statement i. */
  function Bound(stmts: seq<Stmt>, inputs: set<string>, i: nat): set<string>
    requires i <= |stmts|
  {
    if i == 0 then inputs else Bound(stmts, inputs, i - 1) + {stmts[i - 1].name}
  }

  /** The environment before statement i, in exact integers. */
  function Run(stmts: seq<Stmt>, env: Env, i: nat): (r: Env)
    requires i <= |stmts| && Scoped(stmts, env.Keys, i)
    ensures r.Keys == Bound(stmts, env.Keys, i)
  {
    if i == 0 then env
    else
      var e := Run(stmts, env, i - 1);
      e[stmts[i - 1].name := Eval(stmts[i - 1].rhs, e)]
  }

  /** The same run in wrapping native integers. */
  function RunWrap(stmts: seq<Stmt>, env: Env, i: nat): (r: Env)
    requires i <= |stmts| && Scoped(stmts, env.Keys, i)
    ensures r.Keys == Bound(stmts, env.Keys, i)
  {
    if i == 0 then env
    else
      var e := RunWrap(stmts, env, i - 1);
      e[stmts[i - 1].name := EvalWrap(stmts[i - 1].rhs, e)]
  }

  lemma {:induction false} ScopedPrefix(stmts: seq<Stmt>, inputs: set<string>, i: nat, j: nat)
    requires j <= i <= |stmts| && Scoped(stmts, inputs, i)
    ensures Scoped(stmts, inputs, j)
    decreases i
  {
    if j < i {
      ScopedPrefix(stmts, inputs, i - 1, j);
    }
  }

  /** A name that is not rebound keeps its value. */
  lemma {:induction false} Unchanged(stmts: seq<Stmt>, env: Env, v: string, j: nat, i: nat)
    requires j <= i <= |stmts| && Scoped(stmts, env.Keys, i) && Scoped(stmts, env.Keys, j)
    requires forall l :: j <= l < i ==> stmts[l].name != v
    requires v in Run(stmts, env, j)
    ensures v in Run(stmts, env, i) && Run(stmts, env, i)[v] == Run(stmts, env, j)[v]
    decreases i
  {
    if j < i {
      Unchanged(stmts, env, v, j, i - 1);
    }
  }

  // ---------------------------------------------------------------- carry remainders

  /** `defs` records the latest binding of every name bound so far. */
  ghost predicate Latest(defs: map<string, Def>, stmts: seq<Stmt>, i: nat)
    requires i <= |stmts|
  {
    && (forall v :: v in defs ==>
          && defs[v].index < i && stmts[defs[v].index] == Stmt(v, defs[v].rhs)
          && forall l :: defs[v].index < l < i ==> stmts[l].name != v)
    && (forall v, l :: v !in defs && 0 <= l < i ==> stmts[l].name != v)
  }

  /** The shape `check_remainder` insists on: x - (c lsl 28), where c is bound to
      (x + 2^27) asr 28 and no name in x is rebound in between. */
  predicate CheckRemainder(bound: int, rhs: Expr, defs: map<string, Def>) {
    && bound == HALF && rhs.Minus? && rhs.b.Lsl? && rhs.b.k == RADIX && rhs.b.a.Name?
    && rhs.b.a.id in defs
    && var c := defs[rhs.b.a.id];
       && c.rhs == Asr(Plus(rhs.a, Const(HALF)), RADIX)
       && forall v :: v in Names(rhs.a) && v in defs ==> defs[v].index < c.index
  }

  lemma RemainderRange(x: int, k: nat)
    requires k == RADIX
    ensures -HALF <= x - ((x + HALF) / Shift(k)) * Shift(k) < HALF
  {
    assert Pow(2, 7) == 128;
    PowMul(2, 7, 4);
    assert Pow(128, 4) == 0x1000_0000;
  }

  lemma {:induction false} BoundEarlier(stmts: seq<Stmt>, inputs: set<string>, v: string, j: nat, i: nat)
    requires j <= i <= |stmts| && v in Bound(stmts, inputs, i)
    requires forall l :: j <= l < i ==> stmts[l].name != v
    ensures v in Bound(stmts, inputs, j)
    decreases i
  {
    if j < i {
      BoundEarlier(stmts, inputs, v, j, i - 1);
    }
  }

  /** A name whose latest binding is before statement j has the same value at j and at i. */
  lemma StableName(stmts: seq<Stmt>, env: Env, i: nat, defs: map<string, Def>, v: string, j: nat)
    requires j <= i <= |stmts| && Scoped(stmts, env.Keys, i) && Scoped(stmts, env.Keys, j)
    requires Latest(defs, stmts, i) && (v in defs ==> defs[v].index < j) && v in Bound(stmts, env.Keys, i)
    ensures v in Bound(stmts, env.Keys, j) && Run(stmts, env, i)[v] == Run(stmts, env, j)[v]
  {
    BoundEarlier(stmts, env.Keys, v, j, i);
    Unchanged(stmts, env, v, j, i);
  }

  /** The operand of a checked remainder still has the value its carry was computed from. */
  lemma SameOperand(stmts: seq<Stmt>, env: Env, i: nat, defs: map<string, Def>, x: Expr, j: nat)
    requires j <= i <= |stmts| && Scoped(stmts, env.Keys, i) && Scoped(stmts, env.Keys, j) && Latest(defs, stmts, i)
    requires forall v :: v in Names(x) && v in defs ==> defs[v].index < j
    requires Names(x) <= Bound(stmts, env.Keys, i)
    ensures Names(x) <= Bound(stmts, env.Keys, j)
    ensures Eval(x, Run(stmts, env, i)) == Eval(x, Run(stmts, env, j))
  {
    forall v | v in Names(x)
      ensures v in Bound(stmts, env.Keys, j) && Run(stmts, env, i)[v] == Run(stmts, env, j)[v]
    {
      StableName(stmts, env, i, defs, v, j);
    }
    EvalDepends(x, Run(stmts, env, i), Run(stmts, env, j));
  }

  /** The carry a remainder names still holds (x + 2^27) asr 28 for the x of that moment. */
  lemma CarryValue(stmts: seq<Stmt>, env: Env, i: nat, defs: map<string, Def>, carry: string, rhs: Expr, j: nat)
    requires i <= |stmts| && Scoped(stmts, env.Keys, i) && Latest(defs, stmts, i)
    requires carry in defs && defs[carry] == Def(j, rhs)
    requires j < i && Scoped(stmts, env.Keys, j) && Names(rhs) <= Bound(stmts, env.Keys, j)
    ensures carry in Run(stmts, env, i) && Run(stmts, env, i)[carry] == Eval(rhs, Run(stmts, env, j))
  {
    ScopedPrefix(stmts, env.Keys, i, j + 1);
    Unchanged(stmts, env, carry, j + 1, i);
  }

  lemma RemainderValue(rhs: Expr, c: Expr, now: Env, past: Env)
    requires rhs.Minus? && rhs.b.Lsl? && rhs.b.a.Name? && rhs.b.k == RADIX
    requires c.Asr? && c.k == rhs.b.k && c.a == Plus(rhs.a, Const(HALF))
    requires Names(rhs) <= now.Keys && Names(c) <= past.Keys && Names(rhs.a) <= past.Keys && Names(rhs.a) <= now.Keys
    requires rhs.b.a.id in now && now[rhs.b.a.id] == Eval(c, past) && Eval(rhs.a, now) == Eval(rhs.a, past)
    ensures -HALF <= Eval(rhs, now) < HALF
  {
    var x, k := Eval(rhs.a, past), rhs.b.k;
    assert Eval(Const(HALF), past) == HALF;
    assert Eval(c.a, past) == x + HALF;
    assert Eval(rhs.b.a, now) == now[rhs.b.a.id];
    assert Eval(rhs.b, now) == ((x + HALF) / Shift(k)) * Shift(k);
    RemainderRange(x, k);
  }

  /** A checked override is true: the statement's value lies in [-2^27, 2^27). */
  lemma OverrideSound(stmts: seq<Stmt>, env: Env, i: nat, defs: map<string, Def>, bound: int)
    requires i < |stmts| && Scoped(stmts, env.Keys, i) && Latest(defs, stmts, i)
    requires Names(stmts[i].rhs) <= Bound(stmts, env.Keys, i) && CheckRemainder(bound, stmts[i].rhs, defs)
    ensures -HALF <= Eval(stmts[i].rhs, Run(stmts, env, i)) < HALF
  {
    var rhs := stmts[i].rhs;
    var x, carry := rhs.a, rhs.b.a.id;
    var c := defs[carry];
    ScopedPrefix(stmts, env.Keys, i, c.index);
    SameOperand(stmts, env, i, defs, x, c.index);
    assert Names(c.rhs) == Names(c.rhs.a) == Names(x) + Names(Const(HALF)) == Names(x);
    CarryValue(stmts, env, i, defs, carry, c.rhs, c.index);
    RemainderValue(rhs, c.rhs, Run(stmts, env, i), Run(stmts, env, c.index));
  }

  // ---------------------------------------------------------------- the analysis

  datatype Report = Report(bounds: Bounds, peak: nat)

  function DefsAt(stmts: seq<Stmt>, i: nat): map<string, Def>
    requires i <= |stmts|
  {
    if i == 0 then map[] else DefsAt(stmts, i - 1)[stmts[i - 1].name := Def(i - 1, stmts[i - 1].rhs)]
  }

  lemma {:induction false} DefsAreLatest(stmts: seq<Stmt>, i: nat)
    requires i <= |stmts|
    ensures Latest(DefsAt(stmts, i), stmts, i)
  {
    if i > 0 {
      DefsAreLatest(stmts, i - 1);
    }
  }

  /** What the analysis asks of statement i: bound names, and a carry remainder under an override. */
  predicate Justified(stmts: seq<Stmt>, exact: map<nat, int>, inputs: set<string>, i: nat)
    requires i < |stmts|
  {
    && Names(stmts[i].rhs) <= Bound(stmts, inputs, i)
    && (i in exact ==> CheckRemainder(exact[i], stmts[i].rhs, DefsAt(stmts, i)))
  }

  predicate Accepted(stmts: seq<Stmt>, exact: map<nat, int>, inputs: set<string>, n: nat)
    requires n <= |stmts|
  {
    forall i :: 0 <= i < n ==> Justified(stmts, exact, inputs, i)
  }

  function Next(r: Report, s: Stmt, index: nat, exact: map<nat, int>): Report
    requires Names(s.rhs) <= r.bounds.Keys && (index in exact ==> exact[index] >= 0)
  {
    var b := KernelProgram.Bound(s.rhs, r.bounds);
    Report(r.bounds[s.name := if index in exact then exact[index] else b.value], Max(r.peak, b.peak))
  }

  /** The bounds and the peak before statement i of an accepted program. */
  function Reported(stmts: seq<Stmt>, exact: map<nat, int>, inputs: Bounds, inputPeak: nat, i: nat): (r: Report)
    requires i <= |stmts| && Accepted(stmts, exact, inputs.Keys, i)
    ensures r.bounds.Keys == Bound(stmts, inputs.Keys, i)
  {
    if i == 0 then Report(inputs, inputPeak)
    else
      assert Justified(stmts, exact, inputs.Keys, i - 1);
      Next(Reported(stmts, exact, inputs, inputPeak, i - 1), stmts[i - 1], i - 1, exact)
  }

  /** What acceptance promises of one run up to statement i. */
  ghost predicate Sound(stmts: seq<Stmt>, env: Env, i: nat, bounds: Bounds, peak: nat)
    requires i <= |stmts|
  {
    && Scoped(stmts, env.Keys, i)
    && bounds.Keys == Bound(stmts, env.Keys, i)
    && Within(Run(stmts, env, i), bounds)
    && (forall j :: 0 <= j < i ==> Step(stmts, env, j, peak))
    && (peak < LIMIT ==> RunWrap(stmts, env, i) == Run(stmts, env, i))
  }

  /** Every subexpression of statement j stays within the peak. */
  ghost predicate Step(stmts: seq<Stmt>, env: Env, j: nat, peak: nat)
    requires j < |stmts|
  {
    Scoped(stmts, env.Keys, j) && Names(stmts[j].rhs) <= Bound(stmts, env.Keys, j)
    && AllWithin(stmts[j].rhs, Run(stmts, env, j), peak)
  }

  /** Widening the peak keeps every earlier step inside it. */
  lemma StepsCovered(stmts: seq<Stmt>, env: Env, i: nat, peak: nat, wider: nat)
    requires i <= |stmts| && peak <= wider && forall j :: 0 <= j < i ==> Step(stmts, env, j, peak)
    ensures forall j :: 0 <= j < i ==> Step(stmts, env, j, wider)
  {
    forall j | 0 <= j < i ensures Step(stmts, env, j, wider) {
      assert Step(stmts, env, j, peak);
      WithinMore(stmts[j].rhs, Run(stmts, env, j), peak, wider);
    }
  }

  /** The value of a statement is within its bound or its justified override. */
  lemma StatementValue(stmts: seq<Stmt>, env: Env, i: nat, bounds: Bounds, defs: map<string, Def>, r: Range, value: nat)
    requires i < |stmts| && Scoped(stmts, env.Keys, i) && bounds.Keys == Bound(stmts, env.Keys, i)
    requires Within(Run(stmts, env, i), bounds) && Latest(defs, stmts, i)
    requires Names(stmts[i].rhs) <= bounds.Keys && r == KernelProgram.Bound(stmts[i].rhs, bounds)
    requires value == r.value || CheckRemainder(value, stmts[i].rhs, defs)
    ensures InRange(Eval(stmts[i].rhs, Run(stmts, env, i)), value)
    ensures r.peak < LIMIT ==> EvalWrap(stmts[i].rhs, Run(stmts, env, i)) == Eval(stmts[i].rhs, Run(stmts, env, i))
  {
    BoundSound(stmts[i].rhs, Run(stmts, env, i), bounds);
    if value != r.value {
      OverrideSound(stmts, env, i, defs, value);
    }
  }

  lemma StatementSound(stmts: seq<Stmt>, env: Env, i: nat, bounds: Bounds, peak: nat, wider: nat, value: nat)
    requires i < |stmts| && Sound(stmts, env, i, bounds, peak) && peak <= wider && Names(stmts[i].rhs) <= bounds.Keys
    requires InRange(Eval(stmts[i].rhs, Run(stmts, env, i)), value)
    requires wider < LIMIT ==> EvalWrap(stmts[i].rhs, Run(stmts, env, i)) == Eval(stmts[i].rhs, Run(stmts, env, i))
    requires AllWithin(stmts[i].rhs, Run(stmts, env, i), wider)
    ensures Sound(stmts, env, i + 1, bounds[stmts[i].name := value], wider)
  {
    StepsCovered(stmts, env, i, peak, wider);
  }

  lemma OneStatement(stmts: seq<Stmt>, env: Env, i: nat, bounds: Bounds, peak: nat, defs: map<string, Def>,
                     r: Range, value: nat)
    requires i < |stmts| && Sound(stmts, env, i, bounds, peak) && Latest(defs, stmts, i)
    requires Names(stmts[i].rhs) <= bounds.Keys && r == KernelProgram.Bound(stmts[i].rhs, bounds)
    requires value == r.value || CheckRemainder(value, stmts[i].rhs, defs)
    ensures Sound(stmts, env, i + 1, bounds[stmts[i].name := value], Max(peak, r.peak))
  {
    StatementValue(stmts, env, i, bounds, defs, r, value);
    ChildCovered(stmts[i].rhs, Run(stmts, env, i), bounds, Max(peak, r.peak));
    StatementSound(stmts, env, i, bounds, peak, Max(peak, r.peak), value);
  }

  lemma NextSound(stmts: seq<Stmt>, exact: map<nat, int>, env: Env, i: nat, r: Report)
    requires i < |stmts| && Sound(stmts, env, i, r.bounds, r.peak) && Justified(stmts, exact, env.Keys, i)
    ensures var next := Next(r, stmts[i], i, exact); Sound(stmts, env, i + 1, next.bounds, next.peak)
  {
    DefsAreLatest(stmts, i);
    var b := KernelProgram.Bound(stmts[i].rhs, r.bounds);
    OneStatement(stmts, env, i, r.bounds, r.peak, DefsAt(stmts, i), b, if i in exact then exact[i] else b.value);
  }

  /** The report holds of every run whose inputs are within their bounds. */
  lemma {:induction false} ReportSound(stmts: seq<Stmt>, exact: map<nat, int>, inputs: Bounds, inputPeak: nat, env: Env, i: nat)
    requires i <= |stmts| && Accepted(stmts, exact, inputs.Keys, i) && env.Keys == inputs.Keys && Within(env, inputs)
    ensures var r := Reported(stmts, exact, inputs, inputPeak, i); Sound(stmts, env, i, r.bounds, r.peak)
  {
    if i > 0 {
      ReportSound(stmts, exact, inputs, inputPeak, env, i - 1);
      assert Justified(stmts, exact, inputs.Keys, i - 1);
      NextSound(stmts, exact, env, i - 1, Reported(stmts, exact, inputs, inputPeak, i - 1));
    }
  }

  /** `analyse`: rejects exactly the programs with an unbound name or an override that is not a
      carry remainder. */
  method Analyse(program: Program, inputs: Bounds, inputPeak: nat) returns (report: Option<Report>)
    ensures report.Some? <==> Accepted(program.stmts, program.exact, inputs.Keys, |program.stmts|)
    ensures report.Some? ==>
      report.value == Reported(program.stmts, program.exact, inputs, inputPeak, |program.stmts|)
  {
    var bounds, peak := inputs, inputPeak;
    var defs: map<string, Def> := map[];
    var stmts, exact := program.stmts, program.exact;
    for index := 0 to |stmts|
      invariant Accepted(stmts, exact, inputs.Keys, index) && defs == DefsAt(stmts, index)
      invariant Report(bounds, peak) == Reported(stmts, exact, inputs, inputPeak, index)
    {
      var name, rhs := stmts[index].name, stmts[index].rhs;
      if !(Names(rhs) <= bounds.Keys) {
        assert !Justified(stmts, exact, inputs.Keys, index);
        return None;
      }
      var r := KernelProgram.Bound(rhs, bounds);
      var value := r.value;
      if index in exact {
        if !CheckRemainder(exact[index], rhs, defs) {
          assert !Justified(stmts, exact, inputs.Keys, index);
          return None;
        }
        value := exact[index];
      }
      peak := Max(peak, r.peak);
      bounds := bounds[name := value];
      defs := defs[name := Def(index, rhs)];
    }
    report := Some(Report(bounds, peak));
  }

  const TIGHT: int := 0x800_0020

  ghost predicate OutputsTight(outputs: seq<string>, env: Env) {
    forall v :: v in outputs ==> v in env && -TIGHT <= env[v] <= TIGHT
  }

  /** `check`, without its random trials: an accepted kernel never leaves the 63-bit range, so the
      native run is the exact run, and its outputs are tight, on every input within bounds. */
  method Check(program: Program, inputs: Bounds, inputPeak: nat, outputs: seq<string>, ghost env: Env) returns (ok: bool)
    requires env.Keys == inputs.Keys && Within(env, inputs)
    ensures ok ==>
      var n := |program.stmts|;
      && Scoped(program.stmts, env.Keys, n)
      && RunWrap(program.stmts, env, n) == Run(program.stmts, env, n)
      && OutputsTight(outputs, Run(program.stmts, env, n))
    ensures ok <==>
      var n := |program.stmts|;
      && Accepted(program.stmts, program.exact, inputs.Keys, n)
      && var r := Reported(program.stmts, program.exact, inputs, inputPeak, n);
         r.peak < LIMIT && forall v :: v in outputs ==> v in r.bounds && r.bounds[v] <= TIGHT
  {
    var report := Analyse(program, inputs, inputPeak);
    if report.None? || report.value.peak >= LIMIT {
      return false;
    }
    var bounds := report.value.bounds;
    ReportSound(program.stmts, program.exact, inputs, inputPeak, env, |program.stmts|);
    ok := forall v :: v in outputs ==> v in bounds && bounds[v] <= TIGHT;
  }
}
