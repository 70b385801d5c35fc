/** The builders of the kernel generator: what `product_columns`, `build_product`, `serial_carry`,
    `parallel_carry` and `build_linear` append to a program, as functions, and the loops that
    append it. */
module KernelBuild {
  import opened Wrappers
  import opened KernelProgram
  import opened KernelNames
  import opened KernelExec
  import A = KernelAnalysis

  /** (x + 2^27) asr 28 */
  function Carried(x: string): Expr {
    Asr(Plus(Name(x), Const(HALF)), RADIX)
  }

  /** x - (c lsl 28) */
  function Remainder(x: string, c: string): Expr {
    Minus(Name(x), Lsl(Name(c), RADIX))
  }

  function Names16(p: string): seq<string> {
    Family(p, 16)
  }

  // ---------------------------------------------------------------- serial carry

  function CarryLines(x: string, r: string): Lines {
    [Line("c", Carried(x), false), Line(r, Remainder(x, "c"), true)]
  }

  /** Limb i of the chain: the carry in, the carry out, the remainder. */
  function StepLines(cols: seq<string>, i: nat): Lines
    requires |cols| == 16 && i < 16
  {
    var r := Id("r", i);
    if i == 0 then CarryLines(cols[0], r) else [Line(r, Plus(Name(cols[i]), Name("c")), false)] + CarryLines(r, r)
  }

  function ChainLines(cols: seq<string>, n: nat): Lines
    requires |cols| == 16 && n <= 16
  {
    if n == 0 then [] else ChainLines(cols, n - 1) + StepLines(cols, n - 1)
  }

  function IncrementLine(r: string): Line {
    Line(r, Plus(Name(r), Name("c")), false)
  }

  /** The carry out of limb 15, added to two limbs. */
  function FoldLines(i: nat, j: nat): Lines
    requires i < 16 && j < 16
  {
    [IncrementLine(Id("r", i)), IncrementLine(Id("r", j))]
  }

  /** One more carry out of limb i. */
  function CarryOutLines(i: nat): Lines
    requires i < 15
  {
    CarryLines(Id("r", i), Id("r", i)) + [IncrementLine(Id("r", i + 1))]
  }

  function SerialLines(cols: seq<string>): Lines
    requires |cols| == 16
  {
    ChainLines(cols, |cols|) + FoldLines(0, 8) + CarryOutLines(0) + CarryOutLines(8)
  }

  // ---------------------------------------------------------------- parallel carry

  function Previous(i: nat): nat
    requires i < 16
  {
    if i == 0 then 15 else i - 1
  }

  function CarryOf(xs: seq<string>, c: string): Lines
    requires |xs| == 16
  {
    seq(16, i requires 0 <= i < 16 => Line(Id(c, i), Carried(xs[i]), false))
  }

  function RemainderOf(xs: seq<string>, c: string, q: string): Lines
    requires |xs| == 16
  {
    seq(16, i requires 0 <= i < 16 => Line(Id(q, i), Remainder(xs[i], Id(c, i)), true))
  }

  /** Limb i receives c_(i-1), and limb 8 also c_15. */
  function IncomingTerms(c: string, q: string, i: nat): seq<Expr>
    requires i < 16
  {
    [Name(Id(q, i)), Name(Id(c, Previous(i)))] + if i == 8 then [Name(Id(c, 15))] else []
  }

  function IncomingOf(c: string, q: string, out: string): Lines {
    seq(16, i requires 0 <= i < 16 => Line(Id(out, i), Sum(IncomingTerms(c, q, i)), false))
  }

  function ParallelLines(xs: seq<string>, c: string, q: string, out: string): Lines
    requires |xs| == 16
  {
    CarryOf(xs, c) + RemainderOf(xs, c, q) + IncomingOf(c, q, out)
  }

  // ---------------------------------------------------------------- product columns

  /** The term x_i y_j of a column, if there is one; a square doubles cross terms. */
  function TermAt(x: seq<string>, y: seq<string>, square: bool, i: int, j: int): seq<Expr>
    requires |x| == |y| == 8 && 0 <= i < 8
  {
    if !(0 <= j < 8) || (square && i > j) then []
    else if square && i < j then [Times(Name("d" + x[i]), Name(y[j]))]
    else [Times(Name(x[i]), Name(y[j]))]
  }

  function Terms(x: seq<string>, y: seq<string>, square: bool, k: nat, n: nat): seq<Expr>
    requires |x| == |y| == 8 && n <= 8
  {
    if n == 0 then [] else Terms(x, y, square, k, n - 1) + TermAt(x, y, square, n - 1, k - (n - 1))
  }

  /** A doubled limb is defined just before the first column that needs it. */
  function DoubleLines(x: seq<string>, square: bool, k: nat): Lines
    requires |x| == 8
  {
    if square && k % 2 == 1 && k < 15 then [Line("d" + x[k / 2], Plus(Name(x[k / 2]), Name(x[k / 2])), false)] else []
  }

  function ColumnLine(p: string, x: seq<string>, y: seq<string>, square: bool, k: nat): Line
    requires |x| == |y| == 8 && k < 15
  {
    Line(Id(p, k), Sum(Terms(x, y, square, k, 8)), false)
  }

  function ColumnLines(p: string, x: seq<string>, y: seq<string>, square: bool, n: nat): Lines
    requires |x| == |y| == 8 && n <= 15
  {
    if n == 0 then []
    else ColumnLines(p, x, y, square, n - 1) + DoubleLines(x, square, n - 1) + [ColumnLine(p, x, y, square, n - 1)]
  }

  /** Columns 0 to 14, counted from the operands: a literal 15 would unfold them all. */
  function Columns(p: string, x: seq<string>, y: seq<string>, square: bool): Lines
    requires |x| == |y| == 8
  {
    ColumnLines(p, x, y, square, |x| + |y| - 1)
  }

  function SumLines(p: string, a: seq<string>): Lines
    requires |a| == 16
  {
    seq(8, i requires 0 <= i < 8 => Line(Id(p, i), Plus(Name(a[i]), Name(a[i + 8])), false))
  }

  /** r_j = l_j + h_j + s_(j+8) - l_(j+8) */
  function LowColumn(j: nat): Expr
    requires j < 8
  {
    if j < 7
    then Minus(Sum([Name(Id("l", j)), Name(Id("h", j)), Name(Id("s", j + 8))]), Name(Id("l", j + 8)))
    else Sum([Name(Id("l", j)), Name(Id("h", j))])
  }

  /** r_(8+j) = s_j + h_(j+8) + s_(j+8) - l_j */
  function HighColumn(j: nat): Expr
    requires j < 8
  {
    if j < 7
    then Minus(Sum([Name(Id("s", j)), Name(Id("h", j + 8)), Name(Id("s", j + 8))]), Name(Id("l", j)))
    else Minus(Sum([Name(Id("s", j))]), Name(Id("l", j)))
  }

  function ResultLines(): Lines {
    seq(16, i requires 0 <= i < 16 => Line(Id("r", i), if i < 8 then LowColumn(i) else HighColumn(i - 8), false))
  }

  function Other(square: bool): string {
    if square then "a" else "b"
  }

  /** The sums a_i + a_(i+8), and those of b unless squaring. */
  function HalfLines(square: bool): Lines {
    SumLines("aa", Names16("a")) + if square then [] else SumLines("bb", Names16("b"))
  }

  function LowLines(square: bool): Lines {
    Columns("l", Names16("a")[..8], Names16(Other(square))[..8], square)
  }

  function HighLines(square: bool): Lines {
    Columns("h", Names16("a")[8..], Names16(Other(square))[8..], square)
  }

  function MiddleLines(square: bool): Lines {
    Columns("s", Family("aa", 8), Family(Other(square) + Other(square), 8), square)
  }

  function ProductLines(square: bool): Lines {
    HalfLines(square) + LowLines(square) + HighLines(square) + MiddleLines(square)
    + ResultLines() + SerialLines(Names16("r"))
  }

  // ---------------------------------------------------------------- linear kernels

  datatype Linear = AddKernel | SubKernel | SmallKernel | CarryKernel

  function EntryExpr(kind: Linear, i: nat): Expr
    requires i < 16 && kind != CarryKernel
  {
    match kind
    case AddKernel => Plus(Name(Id("a", i)), Name(Id("b", i)))
    case SubKernel => Minus(Name(Id("a", i)), Name(Id("b", i)))
    case SmallKernel => Times(Name(Id("a", i)), Name("k"))
  }

  function EntryLines(kind: Linear): Lines
    requires kind != CarryKernel
  {
    seq(16, i requires 0 <= i < 16 => Line(Id("x", i), EntryExpr(kind, i), false))
  }

  function LinearLines(kind: Linear): Lines {
    match kind
    case CarryKernel => ParallelLines(Names16("a"), "c", "q", "r")
    case SmallKernel =>
      EntryLines(kind) + ParallelLines(Names16("x"), "c", "q", "y") + ParallelLines(Names16("y"), "d", "e", "r")
    case _ => EntryLines(kind) + ParallelLines(Names16("x"), "c", "q", "r")
  }

  // ---------------------------------------------------------------- the loops

  /** The program consists of the lines, and knows the names they define. */
  ghost predicate Wrote(prog: A.Program, ls: Lines)
    reads prog
  {
    && prog.stmts == Stmts(ls) && prog.exact == Exacts(ls)
    && forall v :: v in prog.defined <==> Assigns(ls, v)
  }

  lemma AssignsSnoc(ls: Lines, l: Line)
    ensures forall v :: Assigns(ls + [l], v) <==> Assigns(ls, v) || v == l.name
  {
    forall v ensures Assigns(ls + [l], v) <==> Assigns(ls, v) || v == l.name {
      if Assigns(ls, v) {
        var k :| 0 <= k < |ls| && ls[k].name == v;
        assert (ls + [l])[k].name == v;
      }
      assert (ls + [l])[|ls|] == l;
    }
  }

  /** `let`, in terms of lines. */
  method Put(prog: A.Program, ghost ls: Lines, name: string, rhs: Expr, exact: bool) returns (id: string, ghost all: Lines)
    requires Wrote(prog, ls)
    modifies prog
    ensures id == name && all == ls + [Line(name, rhs, exact)] && Wrote(prog, all)
    ensures prog.defined == old(prog.defined) + {name}
  {
    id := prog.Let(name, rhs, if exact then Some(HALF) else None);
    all := ls + [Line(name, rhs, exact)];
    AssignsSnoc(ls, Line(name, rhs, exact));
  }

  /** The carry out of x and the remainder, named r. */
  method PutCarry(prog: A.Program, ghost ls: Lines, x: string, r: string) returns (id: string, ghost all: Lines)
    requires Wrote(prog, ls)
    modifies prog
    ensures id == r && all == ls + CarryLines(x, r) && Wrote(prog, all)
  {
    var c;
    c, all := Put(prog, ls, "c", Asr(Plus(Name(x), Const(HALF)), RADIX), false);
    id, all := Put(prog, all, r, Minus(Name(x), Lsl(Name(c), RADIX)), true);
  }

  /** One limb of the chain. */
  method ChainStep(prog: A.Program, ghost ls: Lines, cols: seq<string>, i: nat) returns (id: string, ghost all: Lines)
    requires Wrote(prog, ls) && |cols| == 16 && i < 16
    modifies prog
    ensures id == Id("r", i) && all == ls + StepLines(cols, i) && Wrote(prog, all)
  {
    var x := cols[i];
    all := ls;
    if i > 0 {
      x, all := Put(prog, all, Id("r", i), Plus(Name(x), Name("c")), false);
    }
    id, all := PutCarry(prog, all, x, Id("r", i));
  }

  method Chain(prog: A.Program, ghost ls: Lines, cols: seq<string>) returns (names: seq<string>, ghost all: Lines)
    requires Wrote(prog, ls) && |cols| == 16
    modifies prog
    ensures names == Names16("r") && all == ls + ChainLines(cols, |cols|) && Wrote(prog, all)
  {
    names, all := [], ls;
    for i := 0 to |cols|
      invariant names == Family("r", i) && all == ls + ChainLines(cols, i) && Wrote(prog, all)
    {
      var id;
      id, all := ChainStep(prog, all, cols, i);
      names := names + [id];
      Joined(ls, ChainLines(cols, i), StepLines(cols, i));
    }
  }

  lemma Joined(a: Lines, b: Lines, c: Lines)
    ensures a + b + c == a + (b + c)
  {
  }

  /** `serial_carry` */
  method SerialCarry(prog: A.Program, ghost ls: Lines, cols: seq<string>) returns (names: seq<string>, ghost all: Lines)
    requires Wrote(prog, ls) && |cols| == 16
    modifies prog
    ensures names == Names16("r") && all == ls + SerialLines(cols) && Wrote(prog, all)
  {
    names, all := Chain(prog, ls, cols);
    ghost var chain := ChainLines(cols, |cols|);
    var r;
    r, all := Put(prog, all, Id("r", 0), Plus(Name(names[0]), Name("c")), false);
    r, all := Put(prog, all, Id("r", 8), Plus(Name(names[8]), Name("c")), false);
    assert all == ls + chain + FoldLines(0, 8);
    all := CarryOut(prog, all, 0);
    all := CarryOut(prog, all, 8);
    Joined(ls, chain, FoldLines(0, 8));
    Joined(ls, chain + FoldLines(0, 8), CarryOutLines(0));
    Joined(ls, chain + FoldLines(0, 8) + CarryOutLines(0), CarryOutLines(8));
  }

  method CarryOut(prog: A.Program, ghost ls: Lines, i: nat) returns (ghost all: Lines)
    requires Wrote(prog, ls) && i < 15
    modifies prog
    ensures all == ls + CarryOutLines(i) && Wrote(prog, all)
  {
    var r;
    r, all := PutCarry(prog, ls, Id("r", i), Id("r", i));
    r, all := Put(prog, all, Id("r", i + 1), Plus(Name(Id("r", i + 1)), Name("c")), false);
  }

  /** `parallel_carry` */
  method ParallelCarry(prog: A.Program, ghost ls: Lines, xs: seq<string>, c: string, q: string, out: string)
    returns (names: seq<string>, ghost all: Lines)
    requires Wrote(prog, ls) && |xs| == 16
    modifies prog
    ensures names == Names16(out) && all == ls + ParallelLines(xs, c, q, out) && Wrote(prog, all)
  {
    all := ls;
    var cs, qs := [], [];
    for i := 0 to 16
      invariant cs == Family(c, i) && all == ls + CarryOf(xs, c)[..i] && Wrote(prog, all)
    {
      var id;
      id, all := Put(prog, all, Id(c, i), Asr(Plus(Name(xs[i]), Const(HALF)), RADIX), false);
      cs := cs + [id];
    }
    ghost var before := all;
    for i := 0 to 16
      invariant qs == Family(q, i) && all == before + RemainderOf(xs, c, q)[..i] && Wrote(prog, all)
    {
      var id;
      id, all := Put(prog, all, Id(q, i), Minus(Name(xs[i]), Lsl(Name(cs[i]), RADIX)), true);
      qs := qs + [id];
    }
    names, all := Receive(prog, all, cs, qs, c, q, out);
  }

  method Receive(prog: A.Program, ghost ls: Lines, cs: seq<string>, qs: seq<string>, c: string, q: string, out: string)
    returns (names: seq<string>, ghost all: Lines)
    requires Wrote(prog, ls) && cs == Names16(c) && qs == Names16(q)
    modifies prog
    ensures names == Names16(out) && all == ls + IncomingOf(c, q, out) && Wrote(prog, all)
  {
    names, all := [], ls;
    for i := 0 to 16
      invariant names == Family(out, i) && all == ls + IncomingOf(c, q, out)[..i] && Wrote(prog, all)
    {
      var incoming := [Name(cs[if i == 0 then 15 else i - 1])] + if i == 8 then [Name(cs[15])] else [];
      var id;
      assert [Name(qs[i])] + incoming == IncomingTerms(c, q, i);
      id, all := Put(prog, all, Id(out, i), Sum([Name(qs[i])] + incoming), false);
      names := names + [id];
    }
  }

  /** The limbs a square has doubled before term i of column k. */
  predicate Doubled(defined: set<string>, x: seq<string>, k: int, i: int)
    requires |x| == 8
  {
    forall n :: 0 <= n < 8 ==> ("d" + x[n] in defined <==> 2 * n + 1 < k || (2 * n + 1 == k && n < i))
  }

  /** Names the columns do not clash with. */
  predicate Clear(p: string, x: seq<string>) {
    Different(x) && forall n, k :: 0 <= n < |x| && 0 <= k < 15 ==> "d" + x[n] != Id(p, k)
  }

  lemma PrefixedDiffer(p: string, a: string, b: string)
    ensures p + a == p + b ==> a == b
  {
    assert (p + a)[|p|..] == a && (p + b)[|p|..] == b;
  }

  lemma DoubledStep(defined: set<string>, x: seq<string>, k: int, i: int)
    requires |x| == 8 && 0 <= i < 8 && Different(x) && Doubled(defined, x, k, i)
    ensures 2 * i + 1 < k ==> "d" + x[i] in defined
    ensures 2 * i + 1 == k ==> "d" + x[i] !in defined && Doubled(defined + {"d" + x[i]}, x, k, i + 1)
    ensures 2 * i + 1 != k ==> Doubled(defined, x, k, i + 1)
  {
    forall n | 0 <= n < 8 && n != i ensures "d" + x[n] != "d" + x[i] {
      PrefixedDiffer("d", x[n], x[i]);
    }
  }

  lemma DoubledNext(defined: set<string>, p: string, x: seq<string>, k: nat)
    requires |x| == 8 && k < 15 && Clear(p, x) && Doubled(defined, x, k, 8)
    ensures Doubled(defined + {Id(p, k)}, x, k + 1, 0)
  {
  }

  /** The doubled limb, defined now if it was not before. */
  method Double(prog: A.Program, ghost ls: Lines, x: seq<string>, i: nat, ghost k: nat) returns (id: string, ghost all: Lines)
    requires Wrote(prog, ls) && |x| == 8 && Different(x) && 2 * i < k < 15 && i < 8 && Doubled(prog.defined, x, k, i)
    modifies prog
    ensures id == "d" + x[i] && Wrote(prog, all) && Doubled(prog.defined, x, k, i + 1)
    ensures all == if 2 * i + 1 == k then ls + DoubleLines(x, true, k) else ls
  {
    DoubledStep(prog.defined, x, k, i);
    id, all := "d" + x[i], ls;
    if id !in prog.defined {
      id, all := Put(prog, all, id, Plus(Name(x[i]), Name(x[i])), false);
    }
  }

  function SquareStage(ls: Lines, x: seq<string>, k: nat, i: nat): Lines
    requires |x| == 8
  {
    if 2 * i > k then ls + DoubleLines(x, true, k) else ls
  }

  method SquareTerm(prog: A.Program, ghost ls: Lines, ghost before: Lines, x: seq<string>, k: nat, i: nat)
    returns (term: seq<Expr>, ghost all: Lines)
    requires |x| == 8 && k < 15 && i < 8 && Different(x) && Doubled(prog.defined, x, k, i)
    requires ls == SquareStage(before, x, k, i) && Wrote(prog, ls)
    modifies prog
    ensures term == TermAt(x, x, true, i, k - i) && all == SquareStage(before, x, k, i + 1)
    ensures Wrote(prog, all) && Doubled(prog.defined, x, k, i + 1)
  {
    var j := k - i;
    term, all := [], ls;
    DoubledStep(prog.defined, x, k, i);
    if 0 <= j < 8 && i < j {
      var doubled;
      doubled, all := Double(prog, ls, x, i, k);
      term := [Times(Name(doubled), Name(x[j]))];
    } else {
      if 0 <= j < 8 && i == j {
        term := [Times(Name(x[i]), Name(x[j]))];
      }
      StageDone(before, x, k, i);
    }
  }

  /** Nothing is doubled at the middle of a column or after it. */
  lemma StageDone(ls: Lines, x: seq<string>, k: nat, i: nat)
    requires |x| == 8 && k < 15 && i < 8 && (i >= k - i || k - i >= 8)
    ensures SquareStage(ls, x, k, i + 1) == SquareStage(ls, x, k, i)
  {
    if k % 2 == 0 {
      assert ls + [] == ls;
    }
  }

  method SquareTerms(prog: A.Program, ghost ls: Lines, x: seq<string>, k: nat) returns (terms: seq<Expr>, ghost all: Lines)
    requires Wrote(prog, ls) && |x| == 8 && k < 15 && Different(x) && Doubled(prog.defined, x, k, 0)
    modifies prog
    ensures terms == Terms(x, x, true, k, 8) && all == ls + DoubleLines(x, true, k) && Wrote(prog, all)
    ensures Doubled(prog.defined, x, k, 8)
  {
    terms, all := [], ls;
    assert k == 0 ==> ls == ls + DoubleLines(x, true, k);
    for i := 0 to 8
      invariant terms == Terms(x, x, true, k, i) && all == SquareStage(ls, x, k, i)
      invariant Wrote(prog, all) && Doubled(prog.defined, x, k, i)
    {
      var term;
      term, all := SquareTerm(prog, all, ls, x, k, i);
      terms := terms + term;
    }
  }

  method PlainTerms(x: seq<string>, y: seq<string>, k: nat) returns (terms: seq<Expr>)
    requires |x| == |y| == 8
    ensures terms == Terms(x, y, false, k, 8)
  {
    terms := [];
    for i := 0 to 8
      invariant terms == Terms(x, y, false, k, i)
    {
      var j := k - i;
      if 0 <= j < 8 {
        terms := terms + [Times(Name(x[i]), Name(y[j]))];
      }
    }
  }

  /** One column: its doubled limb, then its sum. */
  method PutColumn(prog: A.Program, ghost ls: Lines, p: string, x: seq<string>, y: seq<string>, square: bool, k: nat)
    returns (id: string, ghost all: Lines)
    requires Wrote(prog, ls) && |x| == |y| == 8 && (square ==> x == y) && k < 15 && Clear(p, x)
    requires square ==> Doubled(prog.defined, x, k, 0)
    modifies prog
    ensures id == Id(p, k) && Wrote(prog, all)
    ensures all == ls + DoubleLines(x, square, k) + [ColumnLine(p, x, y, square, k)]
    ensures square ==> Doubled(prog.defined, x, k + 1, 0)
  {
    var terms;
    if square {
      terms, all := SquareTerms(prog, ls, x, k);
      DoubledNext(prog.defined, p, x, k);
    } else {
      terms := PlainTerms(x, y, k);
      all := ls;
      assert ls == ls + DoubleLines(x, square, k);
    }
    id, all := Put(prog, all, Id(p, k), Sum(terms), false);
  }

  /** `product_columns` */
  method ProductColumns(prog: A.Program, ghost ls: Lines, p: string, x: seq<string>, y: seq<string>, square: bool)
    returns (cols: seq<string>, ghost all: Lines)
    requires Wrote(prog, ls) && |x| == |y| == 8 && (square ==> x == y) && Clear(p, x)
    requires square ==> Doubled(prog.defined, x, 0, 0)
    modifies prog
    ensures cols == Family(p, 15) && all == ls + Columns(p, x, y, square) && Wrote(prog, all)
  {
    cols, all := [], ls;
    for k := 0 to |x| + |y| - 1
      invariant cols == Family(p, k) && all == ls + ColumnLines(p, x, y, square, k) && Wrote(prog, all)
      invariant square ==> Doubled(prog.defined, x, k, 0)
    {
      var id;
      id, all := PutColumn(prog, all, p, x, y, square, k);
      cols := cols + [id];
      Joined(ls, ColumnLines(p, x, y, square, k), DoubleLines(x, square, k));
      Joined(ls, ColumnLines(p, x, y, square, k) + DoubleLines(x, square, k), [ColumnLine(p, x, y, square, k)]);
    }
  }

  method PutSums(prog: A.Program, ghost ls: Lines, p: string, a: seq<string>) returns (names: seq<string>, ghost all: Lines)
    requires Wrote(prog, ls) && |a| == 16
    modifies prog
    ensures names == Family(p, 8) && all == ls + SumLines(p, a) && Wrote(prog, all)
  {
    names, all := [], ls;
    for i := 0 to 8
      invariant names == Family(p, i) && all == ls + SumLines(p, a)[..i] && Wrote(prog, all)
    {
      var id;
      id, all := Put(prog, all, Id(p, i), Plus(Name(a[i]), Name(a[i + 8])), false);
      names := names + [id];
    }
  }

  method LowExpr(low: seq<string>, high: seq<string>, sums: seq<string>, j: nat) returns (rhs: Expr)
    requires low == Family("l", 15) && high == Family("h", 15) && sums == Family("s", 15) && j < 8
    ensures rhs == LowColumn(j)
  {
    var positive := [Name(low[j]), Name(high[j])] + if j + 8 < 15 then [Name(sums[j + 8])] else [];
    rhs := Sum(positive);
    if j + 8 < 15 {
      assert positive == [Name(Id("l", j)), Name(Id("h", j)), Name(Id("s", j + 8))];
      rhs := Minus(rhs, Name(low[j + 8]));
    } else {
      assert positive == [Name(Id("l", j)), Name(Id("h", j))];
    }
  }

  method HighExpr(low: seq<string>, high: seq<string>, sums: seq<string>, j: nat) returns (rhs: Expr)
    requires low == Family("l", 15) && high == Family("h", 15) && sums == Family("s", 15) && j < 8
    ensures rhs == HighColumn(j)
  {
    var positive := [Name(sums[j])] + if j + 8 < 15 then [Name(high[j + 8]), Name(sums[j + 8])] else [];
    assert positive == if j < 7 then [Name(Id("s", j)), Name(Id("h", j + 8)), Name(Id("s", j + 8))] else [Name(Id("s", j))];
    rhs := Minus(Sum(positive), Name(low[j]));
  }

  method PutLowResults(prog: A.Program, ghost ls: Lines, low: seq<string>, high: seq<string>, sums: seq<string>)
    returns (cols: seq<string>, ghost all: Lines)
    requires Wrote(prog, ls) && low == Family("l", 15) && high == Family("h", 15) && sums == Family("s", 15)
    modifies prog
    ensures cols == Family("r", 8) && all == ls + ResultLines()[..8] && Wrote(prog, all)
  {
    cols, all := [], ls;
    for j := 0 to 8
      invariant cols == Family("r", j) && all == ls + ResultLines()[..j] && Wrote(prog, all)
    {
      var rhs := LowExpr(low, high, sums, j);
      var id;
      id, all := Put(prog, all, Id("r", j), rhs, false);
      cols := cols + [id];
    }
  }

  /** The sixteen result columns. */
  method PutResults(prog: A.Program, ghost ls: Lines, low: seq<string>, high: seq<string>, sums: seq<string>)
    returns (cols: seq<string>, ghost all: Lines)
    requires Wrote(prog, ls) && low == Family("l", 15) && high == Family("h", 15) && sums == Family("s", 15)
    modifies prog
    ensures cols == Names16("r") && all == ls + ResultLines() && Wrote(prog, all)
  {
    cols, all := PutLowResults(prog, ls, low, high, sums);
    for j := 0 to 8
      invariant cols == Family("r", 8 + j) && all == ls + ResultLines()[..8 + j] && Wrote(prog, all)
    {
      var rhs := HighExpr(low, high, sums, j);
      var id;
      id, all := Put(prog, all, Id("r", 8 + j), rhs, false);
      cols := cols + [id];
    }
  }

  // ---------------------------------------------------------------- whole kernels

  lemma AppendAssigns(a: Lines, b: Lines, v: string)
    ensures Assigns(a + b, v) <==> Assigns(a, v) || Assigns(b, v)
  {
    if Assigns(a, v) {
      var k :| 0 <= k < |a| && a[k].name == v;
      assert (a + b)[k].name == v;
    }
    if Assigns(b, v) {
      var k :| 0 <= k < |b| && b[k].name == v;
      assert (a + b)[|a| + k].name == v;
    }
  }

  /** Columns define their own names and doubled limbs. */
  lemma {:induction false} ColumnsAssign(p: string, x: seq<string>, y: seq<string>, square: bool, n: nat, v: string)
    requires |x| == |y| == 8 && n <= 15 && Assigns(ColumnLines(p, x, y, square, n), v)
    ensures v in Family(p, 15) || exists i :: 0 <= i < 8 && v == "d" + x[i]
  {
    if n > 0 {
      var before, doubles, column := ColumnLines(p, x, y, square, n - 1), DoubleLines(x, square, n - 1), [ColumnLine(p, x, y, square, n - 1)];
      AppendAssigns(before + doubles, column, v);
      AppendAssigns(before, doubles, v);
      if Assigns(before, v) {
        ColumnsAssign(p, x, y, square, n - 1, v);
      } else if Assigns(column, v) {
        assert v == Id(p, n - 1) == Family(p, 15)[n - 1];
      } else {
        assert v == "d" + x[(n - 1) / 2];
      }
    }
  }

  lemma HalvesAssign(square: bool, v: string)
    requires Assigns(HalfLines(square), v)
    ensures v in Family("aa", 8) || v in Family("bb", 8)
  {
    var aa, bb := SumLines("aa", Names16("a")), if square then [] else SumLines("bb", Names16("b"));
    AppendAssigns(aa, bb, v);
    if Assigns(aa, v) {
      var k :| 0 <= k < |aa| && aa[k].name == v;
      assert v == Family("aa", 8)[k];
    } else {
      var k :| 0 <= k < |bb| && bb[k].name == v;
      assert v == Family("bb", 8)[k];
    }
  }

  /** Nothing before the columns of a square defines a doubled limb of x. */
  lemma HalvesFresh(square: bool, q: string, n: nat)
    requires n < 16 && (q == "da" || q == "daa")
    ensures !Assigns(HalfLines(square), Id(q, n))
  {
    if Assigns(HalfLines(square), Id(q, n)) {
      HalvesAssign(square, Id(q, n));
      NotInFamily(q, n, "aa", 8);
      NotInFamily(q, n, "bb", 8);
      assert false;
    }
  }

  /** Columns of other limbs do not define the doubled limb either. */
  lemma ColumnsFresh(p: string, r: string, lo: nat, x: seq<string>, y: seq<string>, square: bool, q: string, n: nat)
    requires |x| == |y| == 8 && n < 100 && Letters(p) && Letters(q) && Letters(r) && p != q && lo + 8 <= 16
    requires forall i :: 0 <= i < 8 ==> x[i] == Id(r, lo + i) && ("d" + r != q || lo + i != n)
    ensures !Assigns(Columns(p, x, y, square), Id(q, n))
  {
    if Assigns(Columns(p, x, y, square), Id(q, n)) {
      ColumnsAssign(p, x, y, square, |x| + |y| - 1, Id(q, n));
      NotInFamily(q, n, p, 15);
      var i :| 0 <= i < 8 && Id(q, n) == "d" + x[i];
      LongerPrefix("d", r, lo + i);
      IdInjective(q, n, "d" + r, lo + i);
      assert false;
    }
  }

  lemma ClearNames(p: string, r: string, lo: nat, x: seq<string>)
    requires Letters(p) && Letters(r) && p != "d" + r && lo + 8 <= 16
    requires |x| == 8 && forall i :: 0 <= i < 8 ==> x[i] == Id(r, lo + i)
    ensures Clear(p, x)
  {
    forall i, j | 0 <= i < j < 8 ensures x[i] != x[j] {
      IdInjective(r, lo + i, r, lo + j);
    }
    forall n, k | 0 <= n < 8 && 0 <= k < 15 ensures "d" + x[n] != Id(p, k) {
      LongerPrefix("d", r, lo + n);
      IdInjective("d" + r, lo + n, p, k);
    }
  }

  /** The names a_i + a_(i+8) and b_i + b_(i+8). */
  method PutHalves(prog: A.Program, square: bool) returns (aa: seq<string>, bb: seq<string>, ghost all: Lines)
    requires Wrote(prog, [])
    modifies prog
    ensures aa == Family("aa", 8) && bb == Family(Other(square) + Other(square), 8)
    ensures all == HalfLines(square) && Wrote(prog, all)
  {
    aa, all := PutSums(prog, [], "aa", Names16("a"));
    assert [] + SumLines("aa", Names16("a")) == SumLines("aa", Names16("a"));
    assert "a" + "a" == "aa" && "b" + "b" == "bb";
    if square {
      bb := aa;
      assert all == HalfLines(square);
    } else {
      bb, all := PutSums(prog, all, "bb", Names16("b"));
    }
  }

  /** The limbs the low columns double are new to the program. */
  lemma LowNew(square: bool, n: nat)
    requires n < 8
    ensures !Assigns(HalfLines(square), "d" + Names16("a")[..8][n])
  {
    LongerPrefix("d", "a", n);
    HalvesFresh(square, "da", n);
  }

  lemma HighNew(square: bool, n: nat)
    requires n < 8
    ensures !Assigns(HalfLines(square) + LowLines(square), "d" + Names16("a")[8..][n])
  {
    LongerPrefix("d", "a", 8 + n);
    HalvesFresh(square, "da", 8 + n);
    ColumnsFresh("l", "a", 0, Names16("a")[..8], Names16(Other(square))[..8], square, "da", 8 + n);
    AppendAssigns(HalfLines(square), LowLines(square), Id("da", 8 + n));
  }

  lemma MiddleNew(square: bool, n: nat)
    requires n < 8
    ensures !Assigns(HalfLines(square) + LowLines(square) + HighLines(square), "d" + Family("aa", 8)[n])
  {
    LongerPrefix("d", "aa", n);
    HalvesFresh(square, "daa", n);
    ColumnsFresh("l", "a", 0, Names16("a")[..8], Names16(Other(square))[..8], square, "daa", n);
    ColumnsFresh("h", "a", 8, Names16("a")[8..], Names16(Other(square))[8..], square, "daa", n);
    AppendAssigns(HalfLines(square), LowLines(square), Id("daa", n));
    AppendAssigns(HalfLines(square) + LowLines(square), HighLines(square), Id("daa", n));
  }

  method PutLow(prog: A.Program, ghost ls: Lines, square: bool) returns (cols: seq<string>, ghost all: Lines)
    requires Wrote(prog, ls) && ls == HalfLines(square)
    modifies prog
    ensures cols == Family("l", 15) && all == ls + LowLines(square) && Wrote(prog, all)
  {
    var x := Names16("a")[..8];
    forall n | 0 <= n < 8 ensures "d" + x[n] !in prog.defined {
      LowNew(square, n);
    }
    ClearNames("l", "a", 0, x);
    cols, all := ProductColumns(prog, ls, "l", x, Names16(Other(square))[..8], square);
  }

  method PutHigh(prog: A.Program, ghost ls: Lines, square: bool) returns (cols: seq<string>, ghost all: Lines)
    requires Wrote(prog, ls) && ls == HalfLines(square) + LowLines(square)
    modifies prog
    ensures cols == Family("h", 15) && all == ls + HighLines(square) && Wrote(prog, all)
  {
    var x := Names16("a")[8..];
    forall n | 0 <= n < 8 ensures "d" + x[n] !in prog.defined {
      HighNew(square, n);
    }
    ClearNames("h", "a", 8, x);
    cols, all := ProductColumns(prog, ls, "h", x, Names16(Other(square))[8..], square);
  }

  method PutMiddle(prog: A.Program, ghost ls: Lines, square: bool, aa: seq<string>, bb: seq<string>)
    returns (cols: seq<string>, ghost all: Lines)
    requires Wrote(prog, ls) && aa == Family("aa", 8) && bb == Family(Other(square) + Other(square), 8)
    requires ls == HalfLines(square) + LowLines(square) + HighLines(square)
    modifies prog
    ensures cols == Family("s", 15) && all == ls + MiddleLines(square) && Wrote(prog, all)
  {
    forall n | 0 <= n < 8 ensures "d" + aa[n] !in prog.defined {
      MiddleNew(square, n);
    }
    ClearNames("s", "aa", 0, aa);
    assert "a" + "a" == "aa";
    cols, all := ProductColumns(prog, ls, "s", aa, bb, square);
  }

  /** `build_product`: the program of `mul`, or of `sq`. */
  method BuildProduct(square: bool) returns (prog: A.Program, outputs: seq<string>)
    ensures fresh(prog) && Wrote(prog, ProductLines(square)) && outputs == Names16("r")
  {
    prog := new A.Program();
    ghost var all: Lines := [];
    var aa, bb, low, high, sums, cols;
    aa, bb, all := PutHalves(prog, square);
    low, all := PutLow(prog, all, square);
    high, all := PutHigh(prog, all, square);
    sums, all := PutMiddle(prog, all, square, aa, bb);
    cols, all := PutResults(prog, all, low, high, sums);
    outputs, all := SerialCarry(prog, all, cols);
  }

  method PutEntries(prog: A.Program, ghost ls: Lines, kind: Linear) returns (xs: seq<string>, ghost all: Lines)
    requires Wrote(prog, ls) && kind != CarryKernel
    modifies prog
    ensures xs == Names16("x") && all == ls + EntryLines(kind) && Wrote(prog, all)
  {
    xs, all := [], ls;
    for i := 0 to 16
      invariant xs == Family("x", i) && all == ls + EntryLines(kind)[..i] && Wrote(prog, all)
    {
      var id;
      id, all := Put(prog, all, Id("x", i), EntryExpr(kind, i), false);
      xs := xs + [id];
    }
  }

  /** `build_linear` */
  method BuildLinear(kind: Linear) returns (prog: A.Program, outputs: seq<string>)
    ensures fresh(prog) && Wrote(prog, LinearLines(kind)) && outputs == Names16("r")
  {
    prog := new A.Program();
    ghost var all: Lines := [];
    if kind == CarryKernel {
      outputs, all := ParallelCarry(prog, [], Names16("a"), "c", "q", "r");
      assert [] + LinearLines(kind) == LinearLines(kind);
      return;
    }
    var xs;
    xs, all := PutEntries(prog, [], kind);
    assert [] + EntryLines(kind) == EntryLines(kind);
    if kind == SmallKernel {
      xs, all := ParallelCarry(prog, all, xs, "c", "q", "y");
      outputs, all := ParallelCarry(prog, all, xs, "d", "e", "r");
    } else {
      outputs, all := ParallelCarry(prog, all, xs, "c", "q", "r");
    }
  }
}
