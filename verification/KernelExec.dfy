/** A generated program run line by line: the exact environment, the interval analysis and its
    record of definitions advance together. */
module KernelExec {
  import opened Wrappers
  import opened KernelProgram
  import A = KernelAnalysis

  /** A statement, and whether its bound is overridden as that of a carry remainder. */
  datatype Line = Line(name: string, rhs: Expr, exact: bool)

  type Lines = seq<Line>

  function Stmts(ls: Lines): (s: seq<A.Stmt>)
    ensures |s| == |ls|
  {
    seq(|ls|, i requires 0 <= i < |ls| => A.Stmt(ls[i].name, ls[i].rhs))
  }

  function Exacts(ls: Lines): map<nat, int> {
    map i: nat | i < |ls| && ls[i].exact :: HALF
  }

  datatype State = State(env: Env, bounds: Bounds, peak: nat, defs: map<string, A.Def>, size: nat)

  predicate Whole(s: State) {
    s.env.Keys == s.bounds.Keys && forall v :: v in s.defs ==> s.defs[v].index < s.size
  }

  type Full = s: State | Whole(s) witness State(map[], map[], 0, map[], 0)

  function Start(env: Env, inputs: Bounds, peak: nat): Full
    requires env.Keys == inputs.Keys
  {
    State(env, inputs, peak, map[], 0)
  }

  predicate Allowed(s: Full, l: Line) {
    Names(l.rhs) <= s.bounds.Keys && (l.exact ==> A.CheckRemainder(HALF, l.rhs, s.defs))
  }

  /** The bound the analysis records for the line. */
  function Recorded(s: Full, l: Line): nat
    requires Names(l.rhs) <= s.bounds.Keys
  {
    if l.exact then HALF else Bound(l.rhs, s.bounds).value
  }

  function Next(s: Full, l: Line): Full
    requires Allowed(s, l)
  {
    State(s.env[l.name := Eval(l.rhs, s.env)], s.bounds[l.name := Recorded(s, l)],
          Max(s.peak, Bound(l.rhs, s.bounds).peak), s.defs[l.name := A.Def(s.size, l.rhs)], s.size + 1)
  }

  /** The state the lines lead to, if the analysis accepts them all. */
  function Exec(s: Full, ls: Lines): Option<Full> {
    if |ls| == 0 then Some(s)
    else
      match Exec(s, ls[..|ls| - 1])
      case None => None
      case Some(t) => if Allowed(t, ls[|ls| - 1]) then Some(Next(t, ls[|ls| - 1])) else None
  }

  lemma {:induction false} ExecAppend(s: Full, a: Lines, b: Lines, t: Full)
    requires Exec(s, a) == Some(t)
    ensures Exec(s, a + b) == Exec(t, b)
  {
    if |b| == 0 {
      assert a + b == a;
    } else {
      var n := |b| - 1;
      assert (a + b)[..|a + b| - 1] == a + b[..n];
      ExecAppend(s, a, b[..n], t);
    }
  }

  lemma Sequel(s: Full, a: Lines, m: Full, b: Lines, t: Full)
    requires Exec(s, a) == Some(m) && Exec(m, b) == Some(t)
    ensures Exec(s, a + b) == Some(t)
  {
    ExecAppend(s, a, b, m);
  }

  lemma ExecOne(s: Full, l: Line)
    requires Allowed(s, l)
    ensures Exec(s, [l]) == Some(Next(s, l))
  {
    assert [l][..0] == [];
    assert Exec(s, []) == Some(s);
  }

  // ---------------------------------------------------------------- the analysis proper

  /** The state is what the generator's run and analysis have reached before statement i. */
  ghost predicate Analysed(ls: Lines, env: Env, inputs: Bounds, peak: nat, i: nat, t: Full) {
    && i <= |ls| && env.Keys == inputs.Keys
    && A.Accepted(Stmts(ls), Exacts(ls), inputs.Keys, i) && A.Scoped(Stmts(ls), env.Keys, i)
    && A.Reported(Stmts(ls), Exacts(ls), inputs, peak, i) == A.Report(t.bounds, t.peak)
    && A.Run(Stmts(ls), env, i) == t.env && A.DefsAt(Stmts(ls), i) == t.defs && t.size == i
  }

  lemma AllowedIsJustified(ls: Lines, env: Env, inputs: Bounds, peak: nat, i: nat, t: Full)
    requires Analysed(ls, env, inputs, peak, i, t) && i < |ls| && Allowed(t, ls[i])
    ensures A.Justified(Stmts(ls), Exacts(ls), inputs.Keys, i)
    ensures A.Accepted(Stmts(ls), Exacts(ls), inputs.Keys, i + 1)
  {
    assert t.bounds.Keys == A.Bound(Stmts(ls), inputs.Keys, i);
  }

  lemma AnalysisStep(ls: Lines, env: Env, inputs: Bounds, peak: nat, i: nat, t: Full)
    requires Analysed(ls, env, inputs, peak, i, t) && i < |ls| && Allowed(t, ls[i])
    ensures Analysed(ls, env, inputs, peak, i + 1, Next(t, ls[i]))
  {
    AllowedIsJustified(ls, env, inputs, peak, i, t);
    var stmts, exact, l := Stmts(ls), Exacts(ls), ls[i];
    assert stmts[i] == A.Stmt(l.name, l.rhs) && (i in exact <==> l.exact);
    assert A.Reported(stmts, exact, inputs, peak, i + 1) == A.Next(A.Report(t.bounds, t.peak), stmts[i], i, exact);
  }

  /** The line-by-line run is the generator's run, and its analysis the generator's analysis. */
  lemma {:induction false} ExecIsAnalysis(ls: Lines, env: Env, inputs: Bounds, peak: nat, i: nat, t: Full)
    requires env.Keys == inputs.Keys && i <= |ls| && Exec(Start(env, inputs, peak), ls[..i]) == Some(t)
    ensures Analysed(ls, env, inputs, peak, i, t)
  {
    if i > 0 {
      assert ls[..i][..i - 1] == ls[..i - 1] && ls[..i][i - 1] == ls[i - 1];
      var m := Exec(Start(env, inputs, peak), ls[..i - 1]).value;
      ExecIsAnalysis(ls, env, inputs, peak, i - 1, m);
      AnalysisStep(ls, env, inputs, peak, i - 1, m);
    }
  }

  // ---------------------------------------------------------------- dependence on names

  lemma {:induction false} BoundDepends(e: Expr, a: Bounds, b: Bounds)
    requires Names(e) <= a.Keys && Names(e) <= b.Keys
    requires forall v :: v in Names(e) ==> a[v] == b[v]
    ensures Bound(e, a) == Bound(e, b)
  {
    match e
    case Name(_) =>
    case Const(_) =>
    case Plus(x, y) => BoundDepends(x, a, b); BoundDepends(y, a, b);
    case Minus(x, y) => BoundDepends(x, a, b); BoundDepends(y, a, b);
    case Times(x, y) => BoundDepends(x, a, b); BoundDepends(y, a, b);
    case Sum(terms) => BoundSumDepends(terms, a, b);
    case Asr(x, _) => BoundDepends(x, a, b);
    case Lsl(x, _) => BoundDepends(x, a, b);
  }

  lemma {:induction false} BoundSumDepends(terms: seq<Expr>, a: Bounds, b: Bounds)
    requires NamesOf(terms) <= a.Keys && NamesOf(terms) <= b.Keys
    requires forall v :: v in NamesOf(terms) ==> a[v] == b[v]
    ensures BoundSum(terms, a) == BoundSum(terms, b)
  {
    if |terms| > 0 {
      BoundSumDepends(terms[..|terms| - 1], a, b);
      BoundDepends(terms[|terms| - 1], a, b);
    }
  }

  /** v is bound to the same value, bound and definition in both states. */
  predicate Kept(s: Full, t: Full, v: string) {
    && (v in s.bounds <==> v in t.bounds) && (v in s.defs <==> v in t.defs)
    && (v in s.bounds ==> s.env[v] == t.env[v] && s.bounds[v] == t.bounds[v])
    && (v in s.defs ==> s.defs[v] == t.defs[v])
  }

  lemma CheckDepends(rhs: Expr, s: Full, t: Full)
    requires A.CheckRemainder(HALF, rhs, s.defs) && forall v :: v in Names(rhs) ==> Kept(s, t, v)
    ensures A.CheckRemainder(HALF, rhs, t.defs)
  {
    var id := rhs.b.a.id;
    assert Names(rhs.b.a) == {id} && Names(rhs.b) == {id} && id in Names(rhs);
    assert Kept(s, t, id);
    forall v | v in Names(rhs.a) && v in t.defs
      ensures t.defs[v].index < t.defs[id].index
    {
      assert v in Names(rhs) && Kept(s, t, v);
    }
  }

  /** A line means the same, and is bounded the same, in states that agree on its names. */
  lemma LineDepends(l: Line, s: Full, t: Full)
    requires Allowed(s, l) && forall v :: v in Names(l.rhs) ==> Kept(s, t, v)
    ensures Allowed(t, l) && Eval(l.rhs, t.env) == Eval(l.rhs, s.env) && Bound(l.rhs, t.bounds) == Bound(l.rhs, s.bounds)
  {
    forall v | v in Names(l.rhs)
      ensures v in t.bounds && t.bounds[v] == s.bounds[v] && t.env[v] == s.env[v]
    {
      assert Kept(s, t, v);
    }
    EvalDepends(l.rhs, s.env, t.env);
    BoundDepends(l.rhs, s.bounds, t.bounds);
    if l.exact {
      CheckDepends(l.rhs, s, t);
    }
  }

  // ---------------------------------------------------------------- independent lines

  predicate Assigns(ls: Lines, v: string) {
    exists k :: 0 <= k < |ls| && ls[k].name == v
  }

  predicate ApartAt(ls: Lines, j: nat, k: nat)
    requires j < |ls| && k < |ls|
  {
    (j != k ==> ls[j].name != ls[k].name) && ls[j].name !in Names(ls[k].rhs)
  }

  /** No line assigns what another assigns or any of them reads. */
  predicate Independent(ls: Lines) {
    forall j, k :: 0 <= j < |ls| && 0 <= k < |ls| ==> ApartAt(ls, j, k)
  }

  /** The line is allowed, stays in range, and is recorded with a bound of at most b. */
  predicate Fits(s: Full, l: Line, b: nat) {
    Allowed(s, l) && Bound(l.rhs, s.bounds).peak < LIMIT && Recorded(s, l) <= b
  }

  /** What the line at position k of a segment leaves behind. */
  predicate Made(s: Full, t: Full, ls: Lines, k: nat, b: nat)
    requires k < |ls| && Names(ls[k].rhs) <= s.bounds.Keys
  {
    var v := ls[k].name;
    && v in t.bounds && t.bounds[v] <= b && t.env[v] == Eval(ls[k].rhs, s.env)
    && v in t.defs && t.defs[v] == A.Def(s.size + k, ls[k].rhs)
  }

  ghost predicate Segmented(s: Full, t: Full, ls: Lines, b: nat) {
    && Exec(s, ls) == Some(t) && t.peak < LIMIT && t.size == s.size + |ls|
    && (forall k :: 0 <= k < |ls| ==> Names(ls[k].rhs) <= s.bounds.Keys && Made(s, t, ls, k, b))
    && forall v :: !Assigns(ls, v) ==> Kept(s, t, v)
  }

  lemma SegmentStep(s: Full, m: Full, ls: Lines, b: nat) returns (t: Full)
    requires |ls| > 0 && Independent(ls) && Segmented(s, m, ls[..|ls| - 1], b) && Fits(s, ls[|ls| - 1], b)
    ensures Segmented(s, t, ls, b)
  {
    var n := |ls| - 1;
    var l := ls[n];
    forall v | v in Names(l.rhs) ensures Kept(s, m, v) {
      forall k | 0 <= k < n ensures ls[..n][k].name != v {
        assert ApartAt(ls, k, n);
      }
    }
    LineDepends(l, s, m);
    t := Next(m, l);
    forall k | 0 <= k < |ls| ensures Names(ls[k].rhs) <= s.bounds.Keys && Made(s, t, ls, k, b) {
      if k < n {
        assert ls[..n][k] == ls[k];
        assert Made(s, m, ls[..n], k, b);
        assert ApartAt(ls, k, n);
      }
    }
    forall v | !Assigns(ls, v) ensures Kept(s, t, v) {
      assert ls[n].name != v;
      NotAssigned(ls, n, v);
    }
  }

  lemma NotAssigned(ls: Lines, n: nat, v: string)
    requires n <= |ls| && !Assigns(ls, v)
    ensures !Assigns(ls[..n], v)
  {
    forall k | 0 <= k < n ensures ls[..n][k].name != v {
      assert ls[..n][k] == ls[k];
    }
  }

  /** Lines independent of each other all read the state before them. */
  lemma {:induction false} Segment(s: Full, ls: Lines, b: nat) returns (t: Full)
    requires s.peak < LIMIT && Independent(ls) && forall k :: 0 <= k < |ls| ==> Fits(s, ls[k], b)
    ensures Segmented(s, t, ls, b)
  {
    if |ls| == 0 {
      t := s;
    } else {
      var n := |ls| - 1;
      forall j, k | 0 <= j < n && 0 <= k < n ensures ApartAt(ls[..n], j, k) {
        assert ApartAt(ls, j, k);
      }
      var m := Segment(s, ls[..n], b);
      t := SegmentStep(s, m, ls, b);
    }
  }

  // ---------------------------------------------------------------- families of names

  predicate CappedAt(bounds: Bounds, v: string, b: nat) {
    v in bounds && bounds[v] <= b
  }

  /** All the names are bound, within b. */
  predicate NamesCapped(bounds: Bounds, names: seq<string>, b: nat) {
    forall i :: 0 <= i < |names| ==> CappedAt(bounds, names[i], b)
  }

  function ValueOf(env: Env, v: string): int {
    if v in env then env[v] else 0
  }

  /** The values of the names. */
  function Read(env: Env, names: seq<string>): (r: seq<int>)
    ensures |r| == |names|
  {
    seq(|names|, i requires 0 <= i < |names| => ValueOf(env, names[i]))
  }
}
