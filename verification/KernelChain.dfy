/** The serial carry a program ends with: it keeps the value modulo P and leaves tight limbs, and
    the interval analysis sees both. */
module KernelChain {
  import opened Wrappers
  import opened Congruence
  import opened Radix
  import opened Prime448
  import opened KernelProgram
  import opened KernelNames
  import opened KernelExec
  import opened KernelBuild
  import A = KernelAnalysis
  import F = Fe448Kernels

  const R: int := F.R

  lemma ShiftIsRadix()
    ensures Shift(RADIX) == R
  {
    assert Pow(2, 7) == 128;
    PowMul(2, 7, 4);
    assert Pow(128, 4) == 0x1000_0000;
  }

  // ---------------------------------------------------------------- single lines

  predicate Stepped(s: Full, t: Full, l: Line, b: nat)
    requires Names(l.rhs) <= s.bounds.Keys
  {
    && Exec(s, [l]) == Some(t) && t.peak < LIMIT && l.name in t.bounds && t.bounds[l.name] <= b
    && t.env[l.name] == Eval(l.rhs, s.env)
    && l.name in t.defs && t.defs[l.name] == A.Def(s.size, l.rhs) && t.size == s.size + 1
  }

  ghost predicate KeptBut(s: Full, t: Full, changed: set<string>) {
    forall v :: v !in changed ==> Kept(s, t, v)
  }

  lemma Step(s: Full, l: Line, b: nat) returns (t: Full)
    requires s.peak < LIMIT && Fits(s, l, b)
    ensures Stepped(s, t, l, b) && KeptBut(s, t, {l.name})
  {
    ExecOne(s, l);
    t := Next(s, l);
  }

  /** r := x + y */
  lemma AddStep(s: Full, r: string, x: string, y: string, b: nat) returns (t: Full)
    requires s.peak < LIMIT && x in s.bounds && y in s.bounds && s.bounds[x] + s.bounds[y] <= b < LIMIT
    ensures Exec(s, [Line(r, Plus(Name(x), Name(y)), false)]) == Some(t) && t.peak < LIMIT && KeptBut(s, t, {r})
    ensures r in t.bounds && t.bounds[r] <= b && t.env[r] == s.env[x] + s.env[y]
  {
    var l := Line(r, Plus(Name(x), Name(y)), false);
    t := Step(s, l, b);
    assert Eval(l.rhs, s.env) == Eval(Name(x), s.env) + Eval(Name(y), s.env);
  }

  lemma CarriedBound(x: string, bounds: Bounds)
    requires x in bounds
    ensures Names(Carried(x)) == {x}
    ensures Bound(Carried(x), bounds).value == (bounds[x] + HALF) / R + 1
    ensures Bound(Carried(x), bounds).peak == bounds[x] + HALF
  {
    ShiftIsRadix();
    var p := Plus(Name(x), Const(HALF));
    assert Bound(p.a, bounds) == Range(bounds[x], bounds[x]) && Bound(p.b, bounds) == Range(HALF, HALF);
    assert Bound(p, bounds) == Range(bounds[x] + HALF, bounds[x] + HALF);
    assert Names(p) == {x};
  }

  lemma CarriedValue(x: string, env: Env)
    requires x in env
    ensures Names(Carried(x)) == {x} && Eval(Carried(x), env) == (env[x] + HALF) / R
  {
    ShiftIsRadix();
    var p := Plus(Name(x), Const(HALF));
    assert Names(p) == {x} && Eval(p, env) == env[x] + HALF;
  }

  lemma RemainderBound(x: string, c: string, bounds: Bounds)
    requires x in bounds && c in bounds
    ensures Names(Remainder(x, c)) == {x, c}
    ensures Bound(Remainder(x, c), bounds).peak == bounds[x] + bounds[c] * R
  {
    ShiftIsRadix();
    var m := Remainder(x, c);
    assert Bound(m.a, bounds) == Range(bounds[x], bounds[x]);
    assert Bound(m.b.a, bounds) == Range(bounds[c], bounds[c]) && Names(m.b) == {c};
    assert Bound(m.b, bounds) == Range(bounds[c] * R, Max(bounds[c], bounds[c] * R));
  }

  lemma RemainderValue(x: string, c: string, env: Env)
    requires x in env && c in env
    ensures Names(Remainder(x, c)) == {x, c} && Eval(Remainder(x, c), env) == env[x] - env[c] * R
  {
    ShiftIsRadix();
    var m := Remainder(x, c);
    assert Names(m.b) == {c} && Eval(m.b.a, env) == env[c] && Eval(m.b, env) == env[c] * R;
  }

  /** A remainder right after its carry is what the override insists on. */
  lemma RemainderChecked(s: Full, x: string, c: string)
    requires x != c && c in s.defs && s.defs[c].rhs == Carried(x)
    requires x in s.defs ==> s.defs[x].index < s.defs[c].index
    ensures A.CheckRemainder(HALF, Remainder(x, c), s.defs)
  {
    assert Names(Remainder(x, c).a) == {x};
  }

  /** A carry of a number of magnitude at most b is at most top, and shifting it back stays in range. */
  predicate Carries(b: nat, top: nat) {
    (b + HALF) / R + 1 <= top && b + HALF < LIMIT && b + top * R < LIMIT
  }

  lemma CarryBoundMonotone(a: nat, b: nat, top: nat)
    requires a <= b && Carries(b, top)
    ensures Carries(a, top)
  {
  }

  /** What a carry out of x and its remainder, named r, leave behind. */
  ghost predicate Paired(s: Full, t: Full, x: string, r: string, top: nat)
    requires x in s.bounds
  {
    && Exec(s, CarryLines(x, r)) == Some(t) && t.peak < LIMIT && KeptBut(s, t, {"c", r})
    && "c" in t.bounds && t.bounds["c"] <= top && t.env["c"] == (s.env[x] + HALF) / R
    && r in t.bounds && t.bounds[r] <= HALF && t.env[r] == s.env[x] - t.env["c"] * R
  }

  lemma CarryFits(s: Full, x: string, c: string, top: nat)
    requires x in s.bounds && Carries(s.bounds[x], top)
    ensures Fits(s, Line(c, Carried(x), false), top)
  {
    CarriedBound(x, s.bounds);
  }

  lemma RemainderFits(m: Full, x: string, c: string, r: string, b: nat, top: nat)
    requires x != c && x in m.bounds && c in m.bounds && m.bounds[x] <= b && m.bounds[c] <= top && Carries(b, top)
    requires c in m.defs && m.defs[c].rhs == Carried(x) && (x in m.defs ==> m.defs[x].index < m.defs[c].index)
    ensures Fits(m, Line(r, Remainder(x, c), true), HALF)
  {
    RemainderBound(x, c, m.bounds);
    RemainderChecked(m, x, c);
  }

  lemma CarryPair(s: Full, x: string, r: string, b: nat, top: nat) returns (t: Full)
    requires s.peak < LIMIT && x != "c" && r != "c" && x in s.bounds && s.bounds[x] <= b && Carries(b, top)
    ensures Paired(s, t, x, r, top)
  {
    CarryBoundMonotone(s.bounds[x], b, top);
    CarryFits(s, x, "c", top);
    var first, second := Line("c", Carried(x), false), Line(r, Remainder(x, "c"), true);
    var m := Step(s, first, top);
    assert Kept(s, m, x);
    RemainderFits(m, x, "c", r, b, top);
    t := Step(m, second, HALF);
    assert Kept(m, t, "c");
    CarriedValue(x, s.env);
    RemainderValue(x, "c", m.env);
    ExecAppend(s, [first], [second], m);
    assert CarryLines(x, r) == [first] + [second];
    forall v | v !in {"c", r} ensures Kept(s, t, v) {
      assert Kept(s, m, v) && Kept(m, t, v);
    }
  }

  // ---------------------------------------------------------------- the chain

  /** An upper bound of the result columns, and of every carry in the chain. */
  const COLUMN: nat := 0x1400_0100_0000_0000
  const CARRY: nat := 0x1_4000_2000

  lemma ChainRanges()
    ensures Carries(COLUMN + CARRY, CARRY) && Carries(HALF + CARRY, 32)
  {
  }

  function Limbs(s: Full): seq<int> {
    Read(s.env, Names16("r"))
  }

  lemma LimbNames()
    ensures Different(Names16("r")) && forall i :: 0 <= i < 16 ==> Names16("r")[i] == Id("r", i) != "c"
  {
    FamilyDifferent("r", 16);
    forall i | 0 <= i < 16 ensures Id("r", i) != "c" {
      IdEnds("r", i);
    }
  }

  /** Changing limb i and the carry changes entry i of the limbs. */
  lemma LimbChanged(s: Full, t: Full, i: nat)
    requires i < 16 && KeptBut(s, t, {"c", Id("r", i)})
    ensures Limbs(t) == Limbs(s)[i := ValueOf(t.env, Id("r", i))]
  {
    LimbNames();
    forall j | 0 <= j < 16 && j != i ensures Limbs(t)[j] == Limbs(s)[j] {
      assert Kept(s, t, Names16("r")[j]);
    }
  }

  function CarryIn(s: Full, i: nat): int {
    if i == 0 then 0 else ValueOf(s.env, "c")
  }

  predicate LimbBound(s: Full, i: nat, b: nat)
    requires i < 16
  {
    Id("r", i) in s.bounds && s.bounds[Id("r", i)] <= b
  }

  predicate InChain(s: Full, i: nat, k: nat)
    requires k < 16
  {
    LimbBound(s, k, if k < i then HALF else COLUMN)
  }

  /** Before step i of the chain: the first i limbs are carried, the carry is small. */
  predicate Chained(s: Full, i: nat)
    requires i <= 16
  {
    && s.peak < LIMIT && (i > 0 ==> "c" in s.bounds && s.bounds["c"] <= CARRY)
    && forall k :: 0 <= k < 16 ==> InChain(s, i, k)
  }

  lemma LimbBoundKept(s: Full, t: Full, i: nat, k: nat, b: nat)
    requires i < 16 && k < 16 && k != i && LimbBound(s, k, b) && KeptBut(s, t, {"c", Id("r", i)})
    ensures LimbBound(t, k, b)
  {
    LimbNames();
    assert Names16("r")[k] != Names16("r")[i];
    assert Kept(s, t, Id("r", k));
  }

  /** Adding the carry in, if there is one. */
  lemma AddCarryIn(s: Full, i: nat) returns (t: Full)
    requires i < 16 && Chained(s, i)
    ensures Exec(s, if i == 0 then [] else [Line(Id("r", i), Plus(Name(Id("r", i)), Name("c")), false)]) == Some(t)
    ensures t.peak < LIMIT && KeptBut(s, t, {Id("r", i)}) && LimbBound(t, i, COLUMN + CARRY)
    ensures ValueOf(t.env, Id("r", i)) == ValueOf(s.env, Id("r", i)) + CarryIn(s, i)
  {
    assert InChain(s, i, i);
    if i == 0 {
      t := s;
    } else {
      t := AddStep(s, Id("r", i), Id("r", i), "c", COLUMN + CARRY);
    }
  }

  lemma ChainStepState(s: Full, i: nat) returns (t: Full)
    requires i < 16 && Chained(s, i)
    ensures Exec(s, StepLines(Names16("r"), i)) == Some(t) && KeptBut(s, t, {"c", Id("r", i)}) && t.peak < LIMIT
    ensures LimbBound(t, i, HALF) && "c" in t.bounds && t.bounds["c"] <= CARRY
    ensures ValueOf(t.env, Id("r", i)) == ValueOf(s.env, Id("r", i)) + CarryIn(s, i) - t.env["c"] * R
  {
    var r := Id("r", i);
    LimbNames();
    ChainRanges();
    var m := AddCarryIn(s, i);
    t := CarryPair(m, r, r, COLUMN + CARRY, CARRY);
    var first := if i == 0 then [] else [Line(r, Plus(Name(r), Name("c")), false)];
    ExecAppend(s, first, CarryLines(r, r), m);
    assert StepLines(Names16("r"), i) == first + CarryLines(r, r);
    forall v | v !in {"c", r} ensures Kept(s, t, v) {
      assert Kept(s, m, v) && Kept(m, t, v);
    }
  }

  lemma ChainStepSound(s: Full, i: nat) returns (t: Full)
    requires i < 16 && Chained(s, i)
    ensures Exec(s, StepLines(Names16("r"), i)) == Some(t) && Chained(t, i + 1)
    ensures Val(R, Limbs(t)) + CarryIn(t, i + 1) * Pow(R, i + 1) == Val(R, Limbs(s)) + CarryIn(s, i) * Pow(R, i)
  {
    t := ChainStepState(s, i);
    var n := i + 1;
    forall k | 0 <= k < 16 ensures InChain(t, n, k) {
      if k != i {
        assert InChain(s, i, k);
        LimbBoundKept(s, t, i, k, if k < i then HALF else COLUMN);
      }
    }
    LimbChanged(s, t, i);
    assert InChain(s, i, i);
    F.CarryStep(Limbs(s), i, CarryIn(s, i), t.env["c"], ValueOf(t.env, Id("r", i)));
  }

  lemma {:induction false} ChainSound(s: Full, n: nat) returns (t: Full)
    requires n <= 16 && Chained(s, 0)
    ensures Exec(s, ChainLines(Names16("r"), n)) == Some(t) && Chained(t, n)
    ensures Val(R, Limbs(t)) + CarryIn(t, n) * Pow(R, n) == Val(R, Limbs(s))
  {
    if n == 0 {
      t := s;
    } else {
      var m := ChainSound(s, n - 1);
      t := ChainStepSound(m, n - 1);
      ExecAppend(s, ChainLines(Names16("r"), n - 1), StepLines(Names16("r"), n - 1), m);
    }
  }

  // ---------------------------------------------------------------- the top carry

  /** The limbs when the top carry has been added to limbs i and j. */
  predicate InFold(s: Full, i: nat, j: nat, k: nat)
    requires k < 16
  {
    LimbBound(s, k, if k == i || k == j then HALF + CARRY else HALF)
  }

  lemma Increment(s: Full, i: nat) returns (t: Full)
    requires i < 16 && s.peak < LIMIT && LimbBound(s, i, HALF) && "c" in s.bounds && s.bounds["c"] <= CARRY
    ensures Exec(s, [IncrementLine(Id("r", i))]) == Some(t) && t.peak < LIMIT && KeptBut(s, t, {Id("r", i)})
    ensures LimbBound(t, i, HALF + CARRY) && Limbs(t) == Limbs(s)[i := Limbs(s)[i] + s.env["c"]]
  {
    t := AddStep(s, Id("r", i), Id("r", i), "c", HALF + CARRY);
    LimbChanged(s, t, i);
  }

  lemma LimbKept(s: Full, t: Full, i: nat, j: nat)
    requires i < 16 && j < 16 && i != j && KeptBut(s, t, {Id("r", i)})
    ensures Kept(s, t, "c") && Kept(s, t, Id("r", j))
  {
    LimbNames();
    assert Names16("r")[i] != Names16("r")[j] && Names16("r")[i] != "c";
  }

  lemma FoldState(s: Full, i: nat, j: nat) returns (m: Full, t: Full)
    requires Chained(s, 16) && i < j < 16
    ensures Exec(s, [IncrementLine(Id("r", i))]) == Some(m) && KeptBut(s, m, {Id("r", i)}) && LimbBound(m, i, HALF + CARRY)
    ensures Exec(m, [IncrementLine(Id("r", j))]) == Some(t) && KeptBut(m, t, {Id("r", j)}) && LimbBound(t, j, HALF + CARRY)
    ensures t.peak < LIMIT
    ensures Limbs(t) == Limbs(s)[i := Limbs(s)[i] + s.env["c"]][j := Limbs(s)[j] + s.env["c"]]
  {
    assert InChain(s, 16, i) && InChain(s, 16, j);
    m := Increment(s, i);
    LimbKept(s, m, i, j);
    t := Increment(m, j);
  }

  /** The carry out of the chain has been added to limbs i and j. */
  predicate Folded(a: Full, b: Full, i: nat, j: nat)
    requires i < 16 && j < 16
  {
    "c" in a.bounds && Limbs(b) == Limbs(a)[i := Limbs(a)[i] + a.env["c"]][j := Limbs(a)[j] + a.env["c"]]
  }

  /** The carry out of limb 15 enters limbs i and j. */
  lemma FoldSound(s: Full, i: nat, j: nat) returns (t: Full)
    requires Chained(s, 16) && i < j < 16
    ensures Exec(s, FoldLines(i, j)) == Some(t) && t.peak < LIMIT
    ensures Folded(s, t, i, j) && forall k :: 0 <= k < 16 ==> InFold(t, i, j, k)
  {
    var m;
    m, t := FoldState(s, i, j);
    Sequel(s, [IncrementLine(Id("r", i))], m, [IncrementLine(Id("r", j))], t);
    assert FoldLines(i, j) == [IncrementLine(Id("r", i))] + [IncrementLine(Id("r", j))];
    forall k | 0 <= k < 16 ensures InFold(t, i, j, k) {
      assert InChain(s, 16, k);
      if k != i {
        LimbBoundKept(s, m, i, k, HALF);
      }
      if k != j {
        LimbBoundKept(m, t, j, k, if k == i then HALF + CARRY else HALF);
      }
    }
  }

  lemma CarryOutState(s: Full, i: nat) returns (m: Full, t: Full)
    requires i < 15 && s.peak < LIMIT && LimbBound(s, i, HALF + CARRY) && LimbBound(s, i + 1, HALF)
    ensures Paired(s, m, Id("r", i), Id("r", i), 32)
    ensures Exec(s, CarryOutLines(i)) == Some(t) && t.peak < LIMIT && KeptBut(m, t, {Id("r", i + 1)})
    ensures LimbBound(t, i, HALF) && LimbBound(t, i + 1, A.TIGHT)
    ensures ValueOf(t.env, Id("r", i + 1)) == ValueOf(m.env, Id("r", i + 1)) + m.env["c"]
  {
    LimbNames();
    ChainRanges();
    var r, next := Id("r", i), Id("r", i + 1);
    assert Names16("r")[i] == r && Names16("r")[i + 1] == next;
    m := CarryPair(s, r, r, HALF + CARRY, 32);
    assert Kept(s, m, next);
    t := AddStep(m, next, next, "c", A.TIGHT);
    assert Kept(m, t, r);
    Sequel(s, CarryLines(r, r), m, [IncrementLine(next)], t);
  }

  /** Only limbs i and i + 1 and the carry differ between the states. */
  ghost predicate KeptPair(s: Full, t: Full, i: nat)
    requires i < 15
  {
    KeptBut(s, t, {"c", Id("r", i), Id("r", i + 1)})
  }

  lemma KeptThrough(s: Full, m: Full, t: Full, i: nat)
    requires i < 15 && KeptBut(s, m, {"c", Id("r", i)}) && KeptBut(m, t, {Id("r", i + 1)})
    ensures KeptPair(s, t, i)
  {
    forall v | v !in {"c", Id("r", i), Id("r", i + 1)} ensures Kept(s, t, v) {
      assert Kept(s, m, v) && Kept(m, t, v);
    }
  }

  /** One more carry moves no value. */
  lemma CarryOutSound(s: Full, i: nat) returns (t: Full)
    requires i < 15 && s.peak < LIMIT && LimbBound(s, i, HALF + CARRY) && LimbBound(s, i + 1, HALF)
    ensures Exec(s, CarryOutLines(i)) == Some(t) && t.peak < LIMIT && KeptPair(s, t, i)
    ensures LimbBound(t, i, HALF) && LimbBound(t, i + 1, A.TIGHT)
    ensures Val(R, Limbs(t)) == Val(R, Limbs(s))
  {
    var m;
    m, t := CarryOutState(s, i);
    KeptThrough(s, m, t, i);
    LimbChanged(s, m, i);
    LimbChanged(m, t, i + 1);
    MoveCarry(Limbs(s), Limbs(m), Limbs(t), i, m.env["c"]);
  }

  /** Taking c off limb i and adding it to limb i + 1 moves no value. */
  lemma MoveCarry(x: seq<int>, y: seq<int>, z: seq<int>, i: nat, c: int)
    requires i + 1 < |x| && y == x[i := x[i] - c * R] && z == y[i + 1 := y[i + 1] + c]
    ensures Val(R, z) == Val(R, x)
  {
    F.CarryStep(x, i, 0, c, y[i]);
    ValUpdate(R, y, i + 1, z[i + 1]);
  }

  lemma OtherLimb(s: Full, t: Full, i: nat, k: nat, b: nat)
    requires i < 15 && k < 16 && k != i && k != i + 1 && LimbBound(s, k, b) && KeptPair(s, t, i)
    ensures LimbBound(t, k, b)
  {
    LimbNames();
    assert Names16("r")[k] != Names16("r")[i] && Names16("r")[k] != Names16("r")[i + 1];
    assert Kept(s, t, Id("r", k));
  }

  predicate TightLimb(s: Full, k: nat)
    requires k < 16
  {
    LimbBound(s, k, A.TIGHT)
  }

  /** The last carries, out of limbs i and j. */
  lemma LastCarries(s: Full, i: nat, j: nat) returns (t: Full)
    requires s.peak < LIMIT && i + 1 < j < 15 && forall k :: 0 <= k < 16 ==> InFold(s, i, j, k)
    ensures Exec(s, CarryOutLines(i) + CarryOutLines(j)) == Some(t) && t.peak < LIMIT
    ensures forall k :: 0 <= k < 16 ==> TightLimb(t, k)
    ensures Val(R, Limbs(t)) == Val(R, Limbs(s))
  {
    var next := i + 1;
    assert InFold(s, i, j, i) && InFold(s, i, j, next) && InFold(s, i, j, j);
    var m := CarryOutSound(s, i);
    OtherLimb(s, m, i, j, HALF + CARRY);
    AfterJ(s, m, i, j);
    t := CarryOutSound(m, j);
    Sequel(s, CarryOutLines(i), m, CarryOutLines(j), t);
    forall k | 0 <= k < 16 ensures TightLimb(t, k) {
      assert InFold(s, i, j, k);
      LimbTightens(s, m, t, i, j, k);
    }
  }

  lemma AfterJ(s: Full, m: Full, i: nat, j: nat)
    requires i + 1 < j < 15 && KeptPair(s, m, i) && forall k :: 0 <= k < 16 ==> InFold(s, i, j, k)
    ensures LimbBound(m, j + 1, HALF)
  {
    var k := j + 1;
    assert InFold(s, i, j, k);
    OtherLimb(s, m, i, k, HALF);
  }

  lemma LimbTightens(s: Full, m: Full, t: Full, i: nat, j: nat, k: nat)
    requires i + 1 < j < 15 && k < 16 && InFold(s, i, j, k) && KeptPair(s, m, i) && KeptPair(m, t, j)
    requires LimbBound(m, i, HALF) && LimbBound(m, i + 1, A.TIGHT) && LimbBound(t, j, HALF) && LimbBound(t, j + 1, A.TIGHT)
    ensures TightLimb(t, k)
  {
    if k != j && k != j + 1 {
      if k != i && k != i + 1 {
        OtherLimb(s, m, i, k, HALF);
      }
      OtherLimb(m, t, j, k, A.TIGHT);
    }
  }

  /** The limbs and the carry out of n steps are worth the limbs before. */
  predicate Conserved(s: Full, a: Full, n: nat) {
    Val(R, Limbs(a)) + CarryIn(a, n) * Pow(R, n) == Val(R, Limbs(s))
  }

  lemma ChainConserves(s: Full, n: nat) returns (a: Full)
    requires n <= 16 && Chained(s, 0)
    ensures Exec(s, ChainLines(Names16("r"), n)) == Some(a) && Chained(a, n) && Conserved(s, a, n)
  {
    a := ChainSound(s, n);
  }

  /** The chain and the fold together keep the value modulo P. */
  lemma FoldedValue(s: Full, a: Full, b: Full, n: nat)
    requires n == 16 && Conserved(s, a, n) && Folded(a, b, 0, 8)
    ensures Cong(Val(R, Limbs(b)), Val(R, Limbs(s)), P)
  {
    F.TopFold(Limbs(a), CarryIn(a, n));
  }

  lemma FourParts(s: Full, w: Lines, a: Full, x: Lines, b: Full, y: Lines, z: Lines, t: Full)
    requires Exec(s, w) == Some(a) && Exec(a, x) == Some(b) && Exec(b, y + z) == Some(t)
    ensures Exec(s, w + x + y + z) == Some(t)
  {
    Sequel(s, w, a, x, b);
    Sequel(s, w + x, b, y + z, t);
    Joined(w + x, y, z);
  }

  /** The chain, the fold into limbs i and j, and their last carries. */
  lemma SerialAt(s: Full, cols: seq<string>, i: nat, j: nat) returns (a: Full, b: Full, t: Full)
    requires Chained(s, 0) && cols == Names16("r") && i == 0 && j == 8
    ensures Exec(s, ChainLines(cols, |cols|) + FoldLines(i, j) + CarryOutLines(i) + CarryOutLines(j)) == Some(t)
    ensures t.peak < LIMIT && forall k :: 0 <= k < 16 ==> TightLimb(t, k)
    ensures Conserved(s, a, |cols|) && Folded(a, b, i, j) && Val(R, Limbs(t)) == Val(R, Limbs(b))
  {
    a := ChainConserves(s, |cols|);
    b := FoldSound(a, i, j);
    t := LastCarries(b, i, j);
    FourParts(s, ChainLines(cols, |cols|), a, FoldLines(i, j), b, CarryOutLines(i), CarryOutLines(j), t);
  }

  /** `serial_carry` on columns within their bound: tight limbs, the same value modulo P. */
  lemma SerialSound(s: Full) returns (t: Full)
    requires Chained(s, 0)
    ensures Exec(s, SerialLines(Names16("r"))) == Some(t) && t.peak < LIMIT
    ensures forall k :: 0 <= k < 16 ==> TightLimb(t, k)
    ensures Cong(Val(R, Limbs(t)), Val(R, Limbs(s)), P)
  {
    var a, b;
    a, b, t := SerialAt(s, Names16("r"), 0, 8);
    FoldedValue(s, a, b, |Names16("r")|);
  }
}
