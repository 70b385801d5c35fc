/** The programs `build_linear` writes for `add`, `sub`, `mul_small` and `carry`: accepted by the
    analysis, tight, and equal to the result modulo P. */
module KernelLinear {
  import opened Wrappers
  import opened Congruence
  import opened Radix
  import opened Prime448
  import opened KernelProgram
  import opened KernelNames
  import opened KernelExec
  import opened KernelBuild
  import opened KernelChain
  import opened KernelFamilies
  import KernelColumns
  import A = KernelAnalysis
  import F = Fe448Kernels

  // ---------------------------------------------------------------- one round of parallel carries

  function CarriesOf(x: seq<int>): (c: seq<int>)
    ensures |c| == |x|
  {
    seq(|x|, i requires 0 <= i < |x| => (x[i] + HALF) / R)
  }

  function RemaindersOf(x: seq<int>): (q: seq<int>)
    ensures |q| == |x|
  {
    seq(|x|, i requires 0 <= i < |x| => x[i] - (x[i] + HALF) / R * R)
  }

  lemma FamilyIs(ls: Lines, p: string)
    requires |ls| == 16 && Letters(p) && forall i :: 0 <= i < 16 ==> ls[i].name == Id(p, i)
    ensures forall v :: v !in Names16(p) ==> !Assigns(ls, v)
  {
    forall v | v !in Names16(p) ensures !Assigns(ls, v) {
      forall k | 0 <= k < 16 ensures ls[k].name != v {
        assert ls[k].name == Names16(p)[k];
      }
    }
  }

  /** Lines named p0 to p15 that read no such name are independent. */
  lemma FamilyIndependent(ls: Lines, p: string)
    requires |ls| == 16 && Letters(p) && forall i :: 0 <= i < 16 ==> ls[i].name == Id(p, i)
    requires forall j, k :: 0 <= j < 16 && 0 <= k < 16 ==> Names16(p)[j] !in Names(ls[k].rhs)
    ensures Independent(ls)
  {
    FamilyDifferent(p, 16);
    forall j, k | 0 <= j < 16 && 0 <= k < 16 ensures ApartAt(ls, j, k) {
      assert ls[j].name == Names16(p)[j] && ls[k].name == Names16(p)[k];
    }
  }

  ghost predicate KeptOutside(s: Full, t: Full, p: string) {
    forall v :: v !in Names16(p) ==> Kept(s, t, v)
  }

  /** A segment named p0 to p15 whose lines have the given values. */
  lemma FamilySegment(s: Full, ls: Lines, p: string, b: nat, vals: seq<int>) returns (t: Full)
    requires |ls| == |vals| == 16 && Letters(p) && s.peak < LIMIT
    requires forall i :: 0 <= i < 16 ==> ls[i].name == Id(p, i) && Fits(s, ls[i], b) && Eval(ls[i].rhs, s.env) == vals[i]
    requires forall j, k :: 0 <= j < 16 && 0 <= k < 16 ==> Names16(p)[j] !in Names(ls[k].rhs)
    ensures Segmented(s, t, ls, b) && Valued(t, Names16(p), b, vals) && KeptOutside(s, t, p)
  {
    FamilyIndependent(ls, p);
    t := Segment(s, ls, b);
    FamilyIs(ls, p);
    forall i | 0 <= i < 16 ensures CappedAt(t.bounds, Names16(p)[i], b) && ValueOf(t.env, Names16(p)[i]) == vals[i] {
      assert Made(s, t, ls, i, b);
    }
  }

  lemma CarrySegment(s: Full, xs: seq<string>, r: string, lo: nat, c: string, b: nat, top: nat, x: seq<int>) returns (t: Full)
    requires |xs| == |x| == 16 && Valued(s, xs, b, x) && Numbered(xs, r, lo) && Letters(c) && c != r && s.peak < LIMIT && Carries(b, top)
    ensures Segmented(s, t, CarryOf(xs, c), top) && Valued(t, Names16(c), top, CarriesOf(x)) && KeptOutside(s, t, c)
  {
    var ls := CarryOf(xs, c);
    FamilyNumbered(c, 16);
    NumberedApart(Names16(c), c, 0, xs, r, lo);
    forall i | 0 <= i < 16
      ensures ls[i].name == Id(c, i) && Fits(s, ls[i], top) && Eval(ls[i].rhs, s.env) == CarriesOf(x)[i] && Names(ls[i].rhs) == {xs[i]}
    {
      assert CappedAt(s.bounds, xs[i], b) && x[i] == Read(s.env, xs)[i];
      CarryBoundMonotone(s.bounds[xs[i]], b, top);
      CarryFits(s, xs[i], Id(c, i), top);
      CarriedValue(xs[i], s.env);
    }
    t := FamilySegment(s, ls, c, top, CarriesOf(x));
  }

  /** After the carries: operands and carries, and each carry's definition. */
  ghost predicate CarriesMade(s: Full, t: Full, xs: seq<string>, c: string, b: nat, top: nat, x: seq<int>)
    requires |xs| == |x| == 16
  {
    Segmented(s, t, CarryOf(xs, c), top) && Valued(t, xs, b, x) && Valued(t, Names16(c), top, CarriesOf(x)) && KeptOutside(s, t, c)
  }

  lemma RemainderAt(s: Full, t: Full, xs: seq<string>, r: string, lo: nat, c: string, q: string, b: nat, top: nat, x: seq<int>, i: nat)
    requires |xs| == |x| == 16 && i < 16 && CarriesMade(s, t, xs, c, b, top, x) && Carries(b, top)
    requires Numbered(xs, r, lo) && Letters(c) && c != r
    ensures Fits(t, RemainderOf(xs, c, q)[i], HALF) && Eval(RemainderOf(xs, c, q)[i].rhs, t.env) == RemaindersOf(x)[i]
    ensures Names(RemainderOf(xs, c, q)[i].rhs) == {xs[i], Id(c, i)}
  {
    FamilyNumbered(c, 16);
    NumberedApart(Names16(c), c, 0, xs, r, lo);
    assert Names16(c)[i] == Id(c, i) && xs[i] !in Names16(c);
    assert Made(s, t, CarryOf(xs, c), i, top) && Kept(s, t, xs[i]);
    assert CappedAt(t.bounds, xs[i], b) && CappedAt(t.bounds, Names16(c)[i], top);
    RemainderFits(t, xs[i], Id(c, i), Id(q, i), b, top);
    RemainderValue(xs[i], Id(c, i), t.env);
    assert x[i] == Read(t.env, xs)[i] && CarriesOf(x)[i] == Read(t.env, Names16(c))[i];
  }

  lemma RemainderSegment(s: Full, m: Full, xs: seq<string>, r: string, lo: nat, c: string, q: string, b: nat, top: nat, x: seq<int>) returns (t: Full)
    requires |xs| == |x| == 16 && CarriesMade(s, m, xs, c, b, top, x) && Carries(b, top)
    requires Numbered(xs, r, lo) && Letters(c) && Letters(q) && c != r && q != r && q != c
    ensures Segmented(m, t, RemainderOf(xs, c, q), HALF) && Valued(t, Names16(q), HALF, RemaindersOf(x))
    ensures Valued(t, Names16(c), top, CarriesOf(x)) && KeptOutside(m, t, q)
  {
    var ls := RemainderOf(xs, c, q);
    FamilyNumbered(q, 16);
    FamilyNumbered(c, 16);
    NumberedApart(Names16(q), q, 0, xs, r, lo);
    NumberedApart(Names16(q), q, 0, Names16(c), c, 0);
    forall i | 0 <= i < 16
      ensures ls[i].name == Id(q, i) && Fits(m, ls[i], HALF) && Eval(ls[i].rhs, m.env) == RemaindersOf(x)[i]
      ensures Names(ls[i].rhs) == {xs[i], Id(c, i)}
    {
      RemainderAt(s, m, xs, r, lo, c, q, b, top, x, i);
    }
    forall j, k | 0 <= j < 16 && 0 <= k < 16 ensures Names16(q)[j] !in Names(ls[k].rhs) {
      assert Names16(q)[j] != xs[k] && Names16(q)[j] != Names16(c)[k];
    }
    t := FamilySegment(m, ls, q, HALF, RemaindersOf(x));
    FamilyKeeps(m, t, q, 16, c, 16, top, CarriesOf(x));
  }

  function Received(q: seq<int>, c: seq<int>): (r: seq<int>)
    requires |q| == |c| == 16
    ensures |r| == 16
  {
    seq(16, i requires 0 <= i < 16 => q[i] + F.Incoming(c, i))
  }

  lemma IncomingParts(s: Full, c: string, q: string, top: nat, u: seq<int>, v: seq<int>, i: nat)
    requires i < 16 && |u| == |v| == 16 && Valued(s, Names16(c), top, u) && Valued(s, Names16(q), HALF, v)
    ensures CappedAt(s.bounds, Id(q, i), HALF) && ValueOf(s.env, Id(q, i)) == v[i]
    ensures CappedAt(s.bounds, Id(c, Previous(i)), top) && ValueOf(s.env, Id(c, Previous(i))) == u[Previous(i)]
    ensures CappedAt(s.bounds, Id(c, 15), top) && ValueOf(s.env, Id(c, 15)) == u[15]
  {
    var n := 15;
    assert CappedAt(s.bounds, Names16(q)[i], HALF) && v[i] == Read(s.env, Names16(q))[i];
    assert CappedAt(s.bounds, Names16(c)[Previous(i)], top) && u[Previous(i)] == Read(s.env, Names16(c))[Previous(i)];
    assert CappedAt(s.bounds, Names16(c)[n], top) && u[n] == Read(s.env, Names16(c))[n];
  }

  /** The sum of one name more. */
  lemma NameAdded(s: Full, terms: seq<Expr>, v: string, b: nat, c: nat)
    requires NamesOf(terms) <= s.bounds.Keys && BoundSum(terms, s.bounds).value <= b && BoundSum(terms, s.bounds).peak <= b
    requires CappedAt(s.bounds, v, c)
    ensures NamesOf(terms + [Name(v)]) == NamesOf(terms) + {v}
    ensures EvalSum(terms + [Name(v)], s.env) == EvalSum(terms, s.env) + ValueOf(s.env, v)
    ensures BoundSum(terms + [Name(v)], s.bounds).value <= b + c && BoundSum(terms + [Name(v)], s.bounds).peak <= b + c
  {
    assert (terms + [Name(v)])[..|terms|] == terms;
    assert Bound(Name(v), s.bounds) == Range(s.bounds[v], s.bounds[v]) && Eval(Name(v), s.env) == ValueOf(s.env, v);
  }

  /** A limb's remainder, one carry, and for one limb another. */
  lemma IncomingSum(s: Full, x: string, y: string, z: string, extra: bool, top: nat)
    requires CappedAt(s.bounds, x, HALF) && CappedAt(s.bounds, y, top) && CappedAt(s.bounds, z, top)
    ensures var terms := [Name(x), Name(y)] + if extra then [Name(z)] else [];
      && NamesOf(terms) <= {x, y, z}
      && EvalSum(terms, s.env) == ValueOf(s.env, x) + ValueOf(s.env, y) + (if extra then ValueOf(s.env, z) else 0)
      && BoundSum(terms, s.bounds).value <= HALF + 2 * top && BoundSum(terms, s.bounds).peak <= HALF + 2 * top
  {
    assert NamesOf([]) == {} && EvalSum([], s.env) == 0 && BoundSum([], s.bounds) == Range(0, 0);
    NameAdded(s, [], x, 0, HALF);
    assert [] + [Name(x)] == [Name(x)];
    NameAdded(s, [Name(x)], y, HALF, top);
    assert [Name(x)] + [Name(y)] == [Name(x), Name(y)];
    NameAdded(s, [Name(x), Name(y)], z, HALF + top, top);
    assert [Name(x), Name(y)] + [] == [Name(x), Name(y)];
  }

  lemma IncomingAt(s: Full, c: string, q: string, out: string, top: nat, u: seq<int>, v: seq<int>, i: nat)
    requires i < 16 && |u| == |v| == 16 && Valued(s, Names16(c), top, u) && Valued(s, Names16(q), HALF, v) && HALF + 2 * top < LIMIT
    ensures Fits(s, IncomingOf(c, q, out)[i], HALF + 2 * top)
    ensures Eval(IncomingOf(c, q, out)[i].rhs, s.env) == Received(v, u)[i]
    ensures Names(IncomingOf(c, q, out)[i].rhs) <= {Id(q, i), Id(c, Previous(i)), Id(c, 15)}
  {
    IncomingParts(s, c, q, top, u, v, i);
    IncomingSum(s, Id(q, i), Id(c, Previous(i)), Id(c, 15), i == 8, top);
    assert IncomingOf(c, q, out)[i].rhs == Sum(IncomingTerms(c, q, i));
  }

  lemma IncomingSegment(s: Full, c: string, q: string, out: string, top: nat, u: seq<int>, v: seq<int>) returns (t: Full)
    requires |u| == |v| == 16 && Valued(s, Names16(c), top, u) && Valued(s, Names16(q), HALF, v) && HALF + 2 * top < LIMIT
    requires Letters(c) && Letters(q) && Letters(out) && out != c && out != q && s.peak < LIMIT
    ensures Exec(s, IncomingOf(c, q, out)) == Some(t) && t.peak < LIMIT && Valued(t, Names16(out), HALF + 2 * top, Received(v, u))
  {
    var ls := IncomingOf(c, q, out);
    FamiliesApart(out, 16, c, 16);
    FamiliesApart(out, 16, q, 16);
    forall i | 0 <= i < 16
      ensures ls[i].name == Id(out, i) && Fits(s, ls[i], HALF + 2 * top) && Eval(ls[i].rhs, s.env) == Received(v, u)[i]
    {
      IncomingAt(s, c, q, out, top, u, v, i);
    }
    forall j, k | 0 <= j < 16 && 0 <= k < 16 ensures Names16(out)[j] !in Names(ls[k].rhs) {
      IncomingAt(s, c, q, out, top, u, v, k);
      var n := 15;
      assert Names16(out)[j] != Names16(q)[k] && Names16(out)[j] != Names16(c)[Previous(k)] && Names16(out)[j] != Names16(c)[n];
    }
    t := FamilySegment(s, ls, out, HALF + 2 * top, Received(v, u));
  }

  /** Sending the carries around keeps the value modulo P. */
  lemma ReceivedValue(x: seq<int>)
    requires |x| == 16
    ensures Cong(Val(R, Received(RemaindersOf(x), CarriesOf(x))), Val(R, x), P)
  {
    var c, q := CarriesOf(x), RemaindersOf(x);
    F.ValScaled(x, q, c);
    F.RotatedCarries(x, q, c, Received(q, c));
  }

  /** `parallel_carry`: limbs of magnitude at most 2^27 plus two carries, the same value modulo P. */
  lemma ParallelSound(s: Full, xs: seq<string>, r: string, c: string, q: string, out: string, b: nat, top: nat, x: seq<int>)
    returns (t: Full, y: seq<int>)
    requires |xs| == |x| == 16 && Valued(s, xs, b, x) && Numbered(xs, r, 0) && s.peak < LIMIT && Carries(b, top)
    requires Letters(c) && Letters(q) && Letters(out) && c != r && q != r && q != c && out != c && out != q && HALF + 2 * top < LIMIT
    ensures Exec(s, ParallelLines(xs, c, q, out)) == Some(t) && t.peak < LIMIT
    ensures |y| == 16 && Valued(t, Names16(out), HALF + 2 * top, y) && Cong(Val(R, y), Val(R, x), P)
  {
    var m := CarrySegment(s, xs, r, 0, c, b, top, x);
    OperandsKeep(s, m, xs, r, c, b, x);
    var n := RemainderSegment(s, m, xs, r, 0, c, q, b, top, x);
    t := IncomingSegment(n, c, q, out, top, CarriesOf(x), RemaindersOf(x));
    y := Received(RemaindersOf(x), CarriesOf(x));
    ReceivedValue(x);
    ThreeParts(s, CarryOf(xs, c), m, RemainderOf(xs, c, q), n, IncomingOf(c, q, out), t);
  }

  lemma OperandsKeep(s: Full, t: Full, xs: seq<string>, r: string, c: string, b: nat, x: seq<int>)
    requires Valued(s, xs, b, x) && Numbered(xs, r, 0) && Letters(c) && c != r && KeptOutside(s, t, c)
    ensures Valued(t, xs, b, x)
  {
    FamilyNumbered(c, 16);
    NumberedApart(Names16(c), c, 0, xs, r, 0);
    forall i | 0 <= i < |xs| ensures Kept(s, t, xs[i]) {
      assert xs[i] !in Names16(c);
    }
    ValuedKept(s, t, xs, b, x);
  }

  lemma ThreeParts(s: Full, p: Lines, a: Full, q: Lines, b: Full, u: Lines, t: Full)
    requires Exec(s, p) == Some(a) && Exec(a, q) == Some(b) && Exec(b, u) == Some(t)
    ensures Exec(s, p + q + u) == Some(t)
  {
    Sequel(s, p, a, q, b);
    Sequel(s, p + q, b, u, t);
  }

  // ---------------------------------------------------------------- whole programs

  const T: nat := A.TIGHT
  const SMALL: nat := F.SMALL
  const DECODED: nat := 0x1000_0000

  /** The largest entry of each kernel, before any carry. */
  function EntryBound(kind: Linear): nat {
    match kind
    case CarryKernel => DECODED
    case SmallKernel => T * SMALL
    case _ => 2 * T
  }

  function EntryValue(kind: Linear, x: int, y: int, k: int): int {
    match kind
    case AddKernel => x + y
    case SubKernel => x - y
    case SmallKernel => x * k
    case CarryKernel => x
  }

  function Entries(kind: Linear, x: seq<int>, y: seq<int>, k: int): (r: seq<int>)
    requires |x| == |y| == 16
    ensures |r| == 16
  {
    seq(16, i requires 0 <= i < 16 => EntryValue(kind, x[i], y[i], k))
  }

  /** The operands of a linear kernel: a, and b or the small factor k where the kernel has one. */
  ghost predicate LinearOperands(s: Full, kind: Linear, x: seq<int>, y: seq<int>, k: int) {
    && |x| == |y| == 16 && s.peak < LIMIT
    && Valued(s, Names16("a"), if kind == CarryKernel then DECODED else T, x)
    && (kind == AddKernel || kind == SubKernel ==> Valued(s, Names16("b"), T, y))
    && (kind == SmallKernel ==> CappedAt(s.bounds, "k", SMALL) && ValueOf(s.env, "k") == k)
  }

  lemma ValueOfEntries(kind: Linear, x: seq<int>, y: seq<int>, k: int)
    requires |x| == |y| == 16
    ensures Val(R, Entries(kind, x, y, k)) == EntryValue(kind, Val(R, x), Val(R, y), k)
  {
    var e := Entries(kind, x, y, k);
    match kind
    case AddKernel => F.ValSum(e, x, y);
    case SubKernel => F.ValSum(x, e, y);
    case SmallKernel => F.ValTimes(e, x, k);
    case CarryKernel => assert e == x;
  }

  lemma PairFits(s: Full, u: string, b: nat, v: string, c: nat)
    requires CappedAt(s.bounds, u, b) && CappedAt(s.bounds, v, c)
    ensures Names(Plus(Name(u), Name(v))) == Names(Minus(Name(u), Name(v))) == Names(Times(Name(u), Name(v))) == {u, v}
    ensures Bound(Plus(Name(u), Name(v)), s.bounds).value <= b + c && Bound(Plus(Name(u), Name(v)), s.bounds).peak <= b + c
    ensures Bound(Minus(Name(u), Name(v)), s.bounds).value <= b + c && Bound(Minus(Name(u), Name(v)), s.bounds).peak <= b + c
    ensures Eval(Plus(Name(u), Name(v)), s.env) == ValueOf(s.env, u) + ValueOf(s.env, v)
    ensures Eval(Minus(Name(u), Name(v)), s.env) == ValueOf(s.env, u) - ValueOf(s.env, v)
    ensures Eval(Times(Name(u), Name(v)), s.env) == ValueOf(s.env, u) * ValueOf(s.env, v)
  {
    assert Bound(Name(u), s.bounds) == Range(s.bounds[u], s.bounds[u]) && Bound(Name(v), s.bounds) == Range(s.bounds[v], s.bounds[v]);
    assert Eval(Name(u), s.env) == ValueOf(s.env, u) && Eval(Name(v), s.env) == ValueOf(s.env, v);
  }

  lemma EntryFits(s: Full, kind: Linear, x: seq<int>, y: seq<int>, k: int, i: nat)
    requires LinearOperands(s, kind, x, y, k) && kind != CarryKernel && i < 16
    ensures Fits(s, EntryLines(kind)[i], EntryBound(kind)) && Eval(EntryLines(kind)[i].rhs, s.env) == Entries(kind, x, y, k)[i]
    ensures Names(EntryLines(kind)[i].rhs) <= {Id("a", i), Id("b", i), "k"}
  {
    assert CappedAt(s.bounds, Names16("a")[i], T) && x[i] == Read(s.env, Names16("a"))[i];
    if kind == SmallKernel {
      PairFits(s, Id("a", i), T, "k", SMALL);
      KernelColumns.ProductCap(s.bounds, Id("a", i), "k", T, SMALL, T * SMALL, T * SMALL);
    } else {
      assert CappedAt(s.bounds, Names16("b")[i], T) && y[i] == Read(s.env, Names16("b"))[i];
      PairFits(s, Id("a", i), T, Id("b", i), T);
    }
  }

  /** The sixteen entries before any carry. */
  lemma EntryStage(s: Full, kind: Linear, x: seq<int>, y: seq<int>, k: int) returns (t: Full)
    requires LinearOperands(s, kind, x, y, k) && kind != CarryKernel
    ensures Exec(s, EntryLines(kind)) == Some(t) && t.peak < LIMIT
    ensures Valued(t, Names16("x"), EntryBound(kind), Entries(kind, x, y, k))
  {
    var ls := EntryLines(kind);
    forall i | 0 <= i < 16
      ensures ls[i].name == Id("x", i) && Fits(s, ls[i], EntryBound(kind)) && Eval(ls[i].rhs, s.env) == Entries(kind, x, y, k)[i]
    {
      EntryFits(s, kind, x, y, k, i);
    }
    FamiliesApart("x", 16, "a", 16);
    FamiliesApart("x", 16, "b", 16);
    forall j, l | 0 <= j < 16 && 0 <= l < 16 ensures Names16("x")[j] !in Names(ls[l].rhs) {
      EntryFits(s, kind, x, y, k, l);
      IdEnds("x", j);
      assert Names16("x")[j] != Names16("a")[l] && Names16("x")[j] != Names16("b")[l];
    }
    t := FamilySegment(s, ls, "x", EntryBound(kind), Entries(kind, x, y, k));
  }

  lemma LinearRanges()
    ensures Carries(2 * T, 2) && Carries(DECODED, 2) && Carries(T * SMALL, 0x8001) && Carries(HALF + 2 * 0x8001, 2)
    ensures HALF + 2 * 2 <= T
  {
  }

  lemma LimbsTight(t: Full, r: seq<int>)
    requires Valued(t, Names16("r"), HALF + 2 * 2, r)
    ensures Limbs(t) == r && forall k :: 0 <= k < 16 ==> TightLimb(t, k)
  {
    LinearRanges();
    forall k | 0 <= k < 16 ensures TightLimb(t, k) {
      assert CappedAt(t.bounds, Names16("r")[k], HALF + 2 * 2);
    }
  }

  /** One round, for `add`, `sub` and `carry`; two for `mul_small`. */
  lemma LinearRounds(s: Full, kind: Linear, xs: seq<string>, r: string, x: seq<int>) returns (t: Full, y: seq<int>)
    requires Valued(s, xs, EntryBound(kind), x) && |xs| == |x| == 16 && Numbered(xs, r, 0) && s.peak < LIMIT
    requires kind != SmallKernel && r in {"a", "x"}
    ensures Exec(s, ParallelLines(xs, "c", "q", "r")) == Some(t) && t.peak < LIMIT
    ensures |y| == 16 && Valued(t, Names16("r"), HALF + 2 * 2, y) && Cong(Val(R, y), Val(R, x), P)
  {
    LinearRanges();
    t, y := ParallelSound(s, xs, r, "c", "q", "r", EntryBound(kind), 2, x);
  }

  lemma SmallRounds(s: Full, xs: seq<string>, x: seq<int>) returns (t: Full, y: seq<int>)
    requires Valued(s, xs, T * SMALL, x) && |xs| == |x| == 16 && Numbered(xs, "x", 0) && s.peak < LIMIT
    ensures Exec(s, ParallelLines(xs, "c", "q", "y") + ParallelLines(Names16("y"), "d", "e", "r")) == Some(t) && t.peak < LIMIT
    ensures |y| == 16 && Valued(t, Names16("r"), HALF + 2 * 2, y) && Cong(Val(R, y), Val(R, x), P)
  {
    LinearRanges();
    var m, z := ParallelSound(s, xs, "x", "c", "q", "y", T * SMALL, 0x8001, x);
    FamilyNumbered("y", 16);
    t, y := ParallelSound(m, Names16("y"), "y", "d", "e", "r", HALF + 2 * 0x8001, 2, z);
    CongTrans(Val(R, y), Val(R, z), Val(R, x), P);
    Sequel(s, ParallelLines(xs, "c", "q", "y"), m, ParallelLines(Names16("y"), "d", "e", "r"), t);
  }

  /** `build_linear`: from operands within their bounds the program reaches tight limbs worth the
      sum, the difference, the small multiple or the operand itself. */
  lemma LinearSound(s: Full, kind: Linear, x: seq<int>, y: seq<int>, k: int) returns (t: Full)
    requires LinearOperands(s, kind, x, y, k)
    ensures Exec(s, LinearLines(kind)) == Some(t) && t.peak < LIMIT
    ensures forall i :: 0 <= i < 16 ==> TightLimb(t, i)
    ensures Cong(Val(R, Limbs(t)), EntryValue(kind, Val(R, x), Val(R, y), k), P)
  {
    var r;
    FamilyNumbered("a", 16);
    FamilyNumbered("x", 16);
    ValueOfEntries(kind, x, y, k);
    if kind == CarryKernel {
      t, r := LinearRounds(s, kind, Names16("a"), "a", x);
    } else {
      var m := EntryStage(s, kind, x, y, k);
      if kind == SmallKernel {
        t, r := SmallRounds(m, Names16("x"), Entries(kind, x, y, k));
        Sequel(s, EntryLines(kind), m, ParallelLines(Names16("x"), "c", "q", "y") + ParallelLines(Names16("y"), "d", "e", "r"), t);
        Joined(EntryLines(kind), ParallelLines(Names16("x"), "c", "q", "y"), ParallelLines(Names16("y"), "d", "e", "r"));
      } else {
        t, r := LinearRounds(m, kind, Names16("x"), "x", Entries(kind, x, y, k));
        Sequel(s, EntryLines(kind), m, ParallelLines(Names16("x"), "c", "q", "r"), t);
      }
    }
    LimbsTight(t, r);
  }
}
