/** The straight-line programs of the kernel generator: expressions over named variables, their
    exact value, their value in wrapping 63-bit integers, and interval bounds. */
module KernelProgram {
  import opened Arith
  import opened Radix

  datatype Expr =
    | Name(id: string)
    | Const(n: int)
    | Plus(a: Expr, b: Expr)
    | Minus(a: Expr, b: Expr)
    | Times(a: Expr, b: Expr)
    | Sum(terms: seq<Expr>)
    | Asr(a: Expr, k: nat)
    | Lsl(a: Expr, k: nat)

  type Env = map<string, int>
  type Bounds = map<string, nat>

  const RADIX: nat := 28
  const HALF: int := 0x800_0000
  const LIMIT: int := 0x4000_0000_0000_0000

  function Names(e: Expr): set<string> {
    match e
    case Name(id) => {id}
    case Const(_) => {}
    case Plus(a, b) => Names(a) + Names(b)
    case Minus(a, b) => Names(a) + Names(b)
    case Times(a, b) => Names(a) + Names(b)
    case Sum(terms) => NamesOf(terms)
    case Asr(a, _) => Names(a)
    case Lsl(a, _) => Names(a)
  }

  function NamesOf(terms: seq<Expr>): set<string> {
    if |terms| == 0 then {} else NamesOf(terms[..|terms| - 1]) + Names(terms[|terms| - 1])
  }

  /** 2^k, as a positive number */
  function Shift(k: nat): (p: nat)
    ensures p > 0
  {
    PowPositive(2, k);
    Pow(2, k)
  }

  // ---------------------------------------------------------------- values

  /** `evaluate`: exact integers; `asr` rounds down. */
  function Eval(e: Expr, env: Env): int
    requires Names(e) <= env.Keys
  {
    match e
    case Name(id) => env[id]
    case Const(n) => n
    case Plus(a, b) => Eval(a, env) + Eval(b, env)
    case Minus(a, b) => Eval(a, env) - Eval(b, env)
    case Times(a, b) => Eval(a, env) * Eval(b, env)
    case Sum(terms) => EvalSum(terms, env)
    case Asr(a, k) => Eval(a, env) / Shift(k)
    case Lsl(a, k) => Eval(a, env) * Shift(k)
  }

  function EvalSum(terms: seq<Expr>, env: Env): int
    requires NamesOf(terms) <= env.Keys
  {
    if |terms| == 0 then 0 else EvalSum(terms[..|terms| - 1], env) + Eval(terms[|terms| - 1], env)
  }

  /** Two's complement of 63 bits. */
  function Wrap(x: int): int {
    (x + LIMIT) % (2 * LIMIT) - LIMIT
  }

  /** The same expression in OCaml's native integers: every operation wraps. */
  function EvalWrap(e: Expr, env: Env): int
    requires Names(e) <= env.Keys
  {
    match e
    case Name(id) => env[id]
    case Const(n) => Wrap(n)
    case Plus(a, b) => Wrap(EvalWrap(a, env) + EvalWrap(b, env))
    case Minus(a, b) => Wrap(EvalWrap(a, env) - EvalWrap(b, env))
    case Times(a, b) => Wrap(EvalWrap(a, env) * EvalWrap(b, env))
    case Sum(terms) => WrapSum(terms, env)
    case Asr(a, k) => EvalWrap(a, env) / Shift(k)
    case Lsl(a, k) => Wrap(EvalWrap(a, env) * Shift(k))
  }

  function WrapSum(terms: seq<Expr>, env: Env): int
    requires NamesOf(terms) <= env.Keys
  {
    if |terms| == 0 then 0
    else Wrap(WrapSum(terms[..|terms| - 1], env) + EvalWrap(terms[|terms| - 1], env))
  }

  // ---------------------------------------------------------------- bounds

  function Max(a: nat, b: nat): nat {
    if a < b then b else a
  }

  /** Largest absolute value, and the largest absolute value of any subexpression. */
  datatype Range = Range(value: nat, peak: nat)

  function Bound(e: Expr, bounds: Bounds): Range
    requires Names(e) <= bounds.Keys
  {
    match e
    case Name(id) => Range(bounds[id], bounds[id])
    case Const(n) => var m := if n < 0 then -n else n; Range(m, m)
    case Plus(a, b) =>
      var r, s := Bound(a, bounds), Bound(b, bounds);
      Range(r.value + s.value, Max(Max(r.peak, s.peak), r.value + s.value))
    case Minus(a, b) =>
      var r, s := Bound(a, bounds), Bound(b, bounds);
      Range(r.value + s.value, Max(Max(r.peak, s.peak), r.value + s.value))
    case Times(a, b) =>
      var r, s := Bound(a, bounds), Bound(b, bounds);
      ProductNat(r.value, s.value);
      Range(r.value * s.value, Max(Max(r.peak, s.peak), r.value * s.value))
    case Sum(terms) => BoundSum(terms, bounds)
    case Asr(a, k) =>
      var r := Bound(a, bounds);
      QuotientNat(r.value, Shift(k));
      Range(r.value / Shift(k) + 1, r.peak)
    case Lsl(a, k) =>
      var r := Bound(a, bounds);
      ProductNat(r.value, Shift(k));
      Range(r.value * Shift(k), Max(r.peak, r.value * Shift(k)))
  }

  function BoundSum(terms: seq<Expr>, bounds: Bounds): Range
    requires NamesOf(terms) <= bounds.Keys
  {
    if |terms| == 0 then Range(0, 0)
    else
      var r, s := BoundSum(terms[..|terms| - 1], bounds), Bound(terms[|terms| - 1], bounds);
      Range(r.value + s.value, Max(Max(r.peak, s.peak), r.value + s.value))
  }

  lemma ProductNat(a: nat, b: nat)
    ensures a * b >= 0
  {
    MulMonotone(0, a, b);
  }

  lemma QuotientNat(a: nat, w: nat)
    requires w > 0
    ensures 0 <= a / w <= a
  {
    var q, r := a / w, a % w;
    if q < 0 {
      MulMonotone(q, -1, w);
    } else {
      MulMonotone(1, w, q);
    }
  }

  predicate Within(env: Env, bounds: Bounds) {
    bounds.Keys <= env.Keys && forall v :: v in bounds ==> -bounds[v] <= env[v] <= bounds[v]
  }

  predicate InRange(x: int, m: int) {
    -m <= x <= m
  }

  lemma QuotientBelow(q: int, t: int, w: int)
    requires w > 0 && q * w < t * w
    ensures q < t
  {
    if q >= t {
      MulMonotone(t, q, w);
    }
  }

  lemma FloorBounds(x: int, w: int)
    requires w > 0
    ensures (x / w) * w <= x < (x / w + 1) * w
  {
    OneMore(x / w, w);
  }

  /** A floor shift stays within both its own bound and the bound of its operand. */
  lemma AsrRange(x: int, v: int, w: int)
    requires w > 0 && -v <= x <= v
    ensures -(v / w + 1) <= x / w <= v / w && (x >= 0 ==> 0 <= x / w <= x) && (x < 0 ==> x <= x / w < 0)
  {
    var q, p := x / w, v / w;
    FloorBounds(x, w);
    FloorBounds(v, w);
    QuotientBelow(q, p + 1, w);
    NegateProduct(p + 1, w);
    QuotientBelow(-(p + 1), q + 1, w);
    AsrShrinks(x, w, q);
  }

  lemma AsrShrinks(x: int, w: int, q: int)
    requires w > 0 && q * w <= x < (q + 1) * w
    ensures (x >= 0 ==> 0 <= q <= x) && (x < 0 ==> x <= q < 0)
  {
    if x >= 0 {
      QuotientBelow(-1, q, w);
      MulMonotone(1, w, q);
    } else {
      QuotientBelow(q, 0, w);
      if q + 1 <= x {
        MulMonotone(1, w, -(q + 1));
      }
    }
  }

  lemma ProductRange(x: int, y: int, a: int, b: int)
    requires -a <= x <= a && -b <= y <= b
    ensures -(a * b) <= x * y <= a * b
  {
    if y >= 0 {
      MulMonotone(x, a, y);
      MulMonotone(-a, x, y);
      MulMonotone(y, b, a);
    } else {
      MulMonotone(x, a, -y);
      MulMonotone(-a, x, -y);
      MulMonotone(-y, b, a);
    }
  }

  lemma WrapSmall(x: int)
    requires -LIMIT <= x < LIMIT
    ensures Wrap(x) == x
  {
  }

  ghost predicate Holds(e: Expr, env: Env, bounds: Bounds)
    requires Names(e) <= bounds.Keys <= env.Keys
  {
    var r := Bound(e, bounds);
    && InRange(Eval(e, env), r.value) && InRange(Eval(e, env), r.peak)
    && (r.peak < LIMIT ==> EvalWrap(e, env) == Eval(e, env))
  }

  lemma PlusSound(a: Expr, b: Expr, env: Env, bounds: Bounds)
    requires Names(Plus(a, b)) <= bounds.Keys <= env.Keys && Holds(a, env, bounds) && Holds(b, env, bounds)
    ensures Holds(Plus(a, b), env, bounds)
  {
    WrapWithin(Plus(a, b), env, bounds);
  }

  lemma MinusSound(a: Expr, b: Expr, env: Env, bounds: Bounds)
    requires Names(Minus(a, b)) <= bounds.Keys <= env.Keys && Holds(a, env, bounds) && Holds(b, env, bounds)
    ensures Holds(Minus(a, b), env, bounds)
  {
    WrapWithin(Minus(a, b), env, bounds);
  }

  lemma AsrSound(a: Expr, k: nat, env: Env, bounds: Bounds)
    requires Names(Asr(a, k)) <= bounds.Keys <= env.Keys && Holds(a, env, bounds)
    ensures Holds(Asr(a, k), env, bounds)
  {
    AsrRange(Eval(a, env), Bound(a, bounds).value, Shift(k));
  }

  lemma TimesSound(a: Expr, b: Expr, env: Env, bounds: Bounds)
    requires Names(Times(a, b)) <= bounds.Keys <= env.Keys && Holds(a, env, bounds) && Holds(b, env, bounds)
    ensures Holds(Times(a, b), env, bounds)
  {
    ProductRange(Eval(a, env), Eval(b, env), Bound(a, bounds).value, Bound(b, bounds).value);
    WrapWithin(Times(a, b), env, bounds);
  }

  lemma LslSound(a: Expr, k: nat, env: Env, bounds: Bounds)
    requires Names(Lsl(a, k)) <= bounds.Keys <= env.Keys && Holds(a, env, bounds)
    ensures Holds(Lsl(a, k), env, bounds)
  {
    ProductRange(Eval(a, env), Shift(k), Bound(a, bounds).value, Shift(k));
    WrapWithin(Lsl(a, k), env, bounds);
  }

  /** An expression stays within its bound and its peak, and below a peak of 2^62 wrapping
      arithmetic is exact at every step. */
  lemma {:induction false} BoundSound(e: Expr, env: Env, bounds: Bounds)
    requires Names(e) <= bounds.Keys && Within(env, bounds)
    ensures Holds(e, env, bounds)
  {
    match e
    case Name(id) =>
    case Const(n) => WrapWithin(e, env, bounds);
    case Plus(a, b) => BoundSound(a, env, bounds); BoundSound(b, env, bounds); PlusSound(a, b, env, bounds);
    case Minus(a, b) => BoundSound(a, env, bounds); BoundSound(b, env, bounds); MinusSound(a, b, env, bounds);
    case Times(a, b) =>
      BoundSound(a, env, bounds);
      BoundSound(b, env, bounds);
      TimesSound(a, b, env, bounds);
    case Sum(terms) => SumSound(terms, env, bounds);
    case Asr(a, k) =>
      BoundSound(a, env, bounds);
      AsrSound(a, k, env, bounds);
    case Lsl(a, k) =>
      BoundSound(a, env, bounds);
      LslSound(a, k, env, bounds);
  }

  lemma WrapWithin(e: Expr, env: Env, bounds: Bounds)
    requires Names(e) <= bounds.Keys <= env.Keys
    ensures InRange(Eval(e, env), Bound(e, bounds).peak) && Bound(e, bounds).peak < LIMIT ==> Wrap(Eval(e, env)) == Eval(e, env)
  {
    if InRange(Eval(e, env), Bound(e, bounds).peak) && Bound(e, bounds).peak < LIMIT {
      WrapSmall(Eval(e, env));
    }
  }

  lemma {:induction false} SumSound(terms: seq<Expr>, env: Env, bounds: Bounds)
    requires NamesOf(terms) <= bounds.Keys && Within(env, bounds)
    ensures var r := BoundSum(terms, bounds);
      && InRange(EvalSum(terms, env), r.value) && InRange(EvalSum(terms, env), r.peak)
      && (r.peak < LIMIT ==> WrapSum(terms, env) == EvalSum(terms, env))
  {
    if |terms| > 0 {
      SumSound(terms[..|terms| - 1], env, bounds);
      BoundSound(terms[|terms| - 1], env, bounds);
      if BoundSum(terms, bounds).peak < LIMIT {
        WrapSmall(EvalSum(terms, env));
      }
    }
  }

  /** Every subexpression, and every partial sum, is at most m in magnitude. */
  predicate AllWithin(e: Expr, env: Env, m: int)
    requires Names(e) <= env.Keys
  {
    InRange(Eval(e, env), m) &&
    match e
    case Name(_) => true
    case Const(_) => true
    case Plus(a, b) => AllWithin(a, env, m) && AllWithin(b, env, m)
    case Minus(a, b) => AllWithin(a, env, m) && AllWithin(b, env, m)
    case Times(a, b) => AllWithin(a, env, m) && AllWithin(b, env, m)
    case Sum(terms) => SumWithin(terms, env, m)
    case Asr(a, _) => AllWithin(a, env, m)
    case Lsl(a, _) => AllWithin(a, env, m)
  }

  predicate SumWithin(terms: seq<Expr>, env: Env, m: int)
    requires NamesOf(terms) <= env.Keys
  {
    InRange(EvalSum(terms, env), m) &&
    (|terms| > 0 ==> SumWithin(terms[..|terms| - 1], env, m) && AllWithin(terms[|terms| - 1], env, m))
  }

  lemma {:induction false} WithinMore(e: Expr, env: Env, m: int, n: int)
    requires Names(e) <= env.Keys && m <= n && AllWithin(e, env, m)
    ensures AllWithin(e, env, n)
  {
    match e
    case Name(_) =>
    case Const(_) =>
    case Plus(a, b) => WithinMore(a, env, m, n); WithinMore(b, env, m, n);
    case Minus(a, b) => WithinMore(a, env, m, n); WithinMore(b, env, m, n);
    case Times(a, b) => WithinMore(a, env, m, n); WithinMore(b, env, m, n);
    case Sum(terms) => SumWithinMore(terms, env, m, n);
    case Asr(a, _) => WithinMore(a, env, m, n);
    case Lsl(a, _) => WithinMore(a, env, m, n);
  }

  lemma {:induction false} SumWithinMore(terms: seq<Expr>, env: Env, m: int, n: int)
    requires NamesOf(terms) <= env.Keys && m <= n && SumWithin(terms, env, m)
    ensures SumWithin(terms, env, n)
  {
    if |terms| > 0 {
      SumWithinMore(terms[..|terms| - 1], env, m, n);
      WithinMore(terms[|terms| - 1], env, m, n);
    }
  }

  /** The reported peak covers every subexpression and partial sum. */
  lemma {:induction false} PeakCovers(e: Expr, env: Env, bounds: Bounds)
    requires Names(e) <= bounds.Keys && Within(env, bounds)
    ensures AllWithin(e, env, Bound(e, bounds).peak)
    decreases e, 0
  {
    BoundSound(e, env, bounds);
    var peak := Bound(e, bounds).peak;
    match e
    case Name(_) =>
    case Const(_) =>
    case Plus(a, b) => ChildCovered(a, env, bounds, peak); ChildCovered(b, env, bounds, peak);
    case Minus(a, b) => ChildCovered(a, env, bounds, peak); ChildCovered(b, env, bounds, peak);
    case Times(a, b) => ChildCovered(a, env, bounds, peak); ChildCovered(b, env, bounds, peak);
    case Sum(terms) => PeakCoversSum(terms, env, bounds);
    case Asr(a, _) => ChildCovered(a, env, bounds, peak);
    case Lsl(a, _) => ChildCovered(a, env, bounds, peak);
  }

  lemma {:induction false} ChildCovered(e: Expr, env: Env, bounds: Bounds, peak: nat)
    requires Names(e) <= bounds.Keys && Within(env, bounds) && Bound(e, bounds).peak <= peak
    ensures AllWithin(e, env, peak)
    decreases e, 1
  {
    PeakCovers(e, env, bounds);
    WithinMore(e, env, Bound(e, bounds).peak, peak);
  }

  lemma {:induction false} PeakCoversSum(terms: seq<Expr>, env: Env, bounds: Bounds)
    requires NamesOf(terms) <= bounds.Keys && Within(env, bounds)
    ensures SumWithin(terms, env, BoundSum(terms, bounds).peak)
  {
    SumSound(terms, env, bounds);
    if |terms| > 0 {
      var n := |terms| - 1;
      PeakCoversSum(terms[..n], env, bounds);
      SumWithinMore(terms[..n], env, BoundSum(terms[..n], bounds).peak, BoundSum(terms, bounds).peak);
      ChildCovered(terms[n], env, bounds, BoundSum(terms, bounds).peak);
    }
  }

  // ---------------------------------------------------------------- dependence on names

  /** The value of an expression depends only on the names in it. */
  lemma {:induction false} EvalDepends(e: Expr, env: Env, other: Env)
    requires Names(e) <= env.Keys && Names(e) <= other.Keys
    requires forall v :: v in Names(e) ==> env[v] == other[v]
    ensures Eval(e, env) == Eval(e, other)
  {
    match e
    case Name(id) =>
    case Const(n) =>
    case Plus(a, b) => EvalDepends(a, env, other); EvalDepends(b, env, other);
    case Minus(a, b) => EvalDepends(a, env, other); EvalDepends(b, env, other);
    case Times(a, b) => EvalDepends(a, env, other); EvalDepends(b, env, other);
    case Sum(terms) => SumDepends(terms, env, other);
    case Asr(a, k) => EvalDepends(a, env, other);
    case Lsl(a, k) => EvalDepends(a, env, other);
  }

  lemma {:induction false} SumDepends(terms: seq<Expr>, env: Env, other: Env)
    requires NamesOf(terms) <= env.Keys && NamesOf(terms) <= other.Keys
    requires forall v :: v in NamesOf(terms) ==> env[v] == other[v]
    ensures EvalSum(terms, env) == EvalSum(terms, other)
  {
    if |terms| > 0 {
      SumDepends(terms[..|terms| - 1], env, other);
      EvalDepends(terms[|terms| - 1], env, other);
    }
  }
}
