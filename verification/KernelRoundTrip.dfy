/** Printing a kernel expression and reading it back. The printed text is a chain of atoms and
    operators; the reader groups the chain by precedence, and its grouping is the intended tree
    exactly when no parenthesis the reader needs was omitted. */
module KernelRoundTrip {
  import opened Wrappers
  import opened KernelProgram
  import opened KernelSyntax

  // ---------------------------------------------------------------- operator chains

  /** An atom of printed text: its tokens, and the tree the reader makes of them. */
  datatype Atom = Atom(text: seq<Token>, tree: Raw)

  type Tail = seq<(Op, Atom)>

  /** Text outside parentheses: atoms with operators between them. */
  datatype Chain = Chain(head: Atom, tail: Tail)

  predicate SumOp(op: Op) {
    op == Add || op == Sub
  }

  predicate ShiftOp(op: Op) {
    op == ShiftRight || op == ShiftLeft
  }

  function OpToken(op: Op): Token {
    match op
    case Add => Sym("+")
    case Sub => Sym("-")
    case Mul => Sym("*")
    case ShiftRight => Ident("asr")
    case ShiftLeft => Ident("lsl")
  }

  function TailText(tail: Tail): seq<Token> {
    if |tail| == 0 then [] else [OpToken(tail[0].0)] + tail[0].1.text + TailText(tail[1..])
  }

  function Text(c: Chain): seq<Token> {
    c.head.text + TailText(c.tail)
  }

  datatype Grouped = Grouped(tree: Raw, rest: Tail)

  /** Shifts bind tightest and nest to the right. */
  function GroupShift(a: Atom, tail: Tail): (g: Grouped)
    ensures |g.rest| <= |tail| && (|g.rest| > 0 ==> !ShiftOp(g.rest[0].0))
    decreases |tail|
  {
    if |tail| > 0 && ShiftOp(tail[0].0) then
      var g := GroupShift(tail[0].1, tail[1..]);
      Grouped(RBin(tail[0].0, a.tree, g.tree), g.rest)
    else Grouped(a.tree, tail)
  }

  function GroupProd(left: Raw, tail: Tail): (g: Grouped)
    requires |tail| > 0 ==> !ShiftOp(tail[0].0)
    ensures |g.rest| <= |tail| && (|g.rest| > 0 ==> SumOp(g.rest[0].0))
    decreases |tail|
  {
    if |tail| > 0 && tail[0].0 == Mul then
      var g := GroupShift(tail[0].1, tail[1..]);
      GroupProd(RBin(Mul, left, g.tree), g.rest)
    else Grouped(left, tail)
  }

  function Product(a: Atom, tail: Tail): (g: Grouped)
    ensures |g.rest| <= |tail| && (|g.rest| > 0 ==> SumOp(g.rest[0].0))
  {
    var g := GroupShift(a, tail);
    GroupProd(g.tree, g.rest)
  }

  function GroupSum(left: Raw, tail: Tail): Raw
    requires |tail| > 0 ==> SumOp(tail[0].0)
    decreases |tail|
  {
    if |tail| == 0 then left
    else
      var g := Product(tail[0].1, tail[1..]);
      GroupSum(RBin(tail[0].0, left, g.tree), g.rest)
  }

  /** The tree the reader makes of a chain. */
  function Tree(c: Chain): Raw {
    var g := Product(c.head, c.tail);
    GroupSum(g.tree, g.rest)
  }

  // ---------------------------------------------------------------- the reader groups a chain

  predicate AtomAt(a: Atom, rest: seq<Token>) {
    ParseApp(a.text + rest) == Done(a.tree, rest)
  }

  /** The reader takes the text for one atom, whatever follows. */
  ghost predicate IsAtom(a: Atom) {
    forall rest: seq<Token> :: AtomAt(a, rest)
  }

  ghost predicate TailAtoms(tail: Tail) {
    forall i :: 0 <= i < |tail| ==> IsAtom(tail[i].1)
  }

  ghost predicate Atoms(c: Chain) {
    IsAtom(c.head) && TailAtoms(c.tail)
  }

  predicate NoShift(t: seq<Token>) {
    !(|t| > 0 && t[0].Ident? && ShiftWord(t[0].text))
  }

  /** What follows cannot continue an expression. */
  predicate Stops(t: seq<Token>) {
    NoShift(t) && !(|t| > 0 && (t[0] == Sym("*") || t[0] == Sym("+") || t[0] == Sym("-")))
  }

  lemma TailStep(tail: Tail, rest: seq<Token>)
    requires |tail| > 0
    ensures |TailText(tail) + rest| > 0 && (TailText(tail) + rest)[0] == OpToken(tail[0].0)
    ensures (TailText(tail) + rest)[1..] == tail[0].1.text + (TailText(tail[1..]) + rest)
  {
    var more := tail[0].1.text + (TailText(tail[1..]) + rest);
    assert TailText(tail) + rest == [OpToken(tail[0].0)] + more;
  }

  lemma {:induction false} ShiftRead(a: Atom, tail: Tail, rest: seq<Token>)
    requires IsAtom(a) && TailAtoms(tail) && Stops(rest)
    ensures var g := GroupShift(a, tail);
      TailAtoms(g.rest) && ParseShift(a.text + (TailText(tail) + rest)) == Done(g.tree, TailText(g.rest) + rest)
    decreases |tail|
  {
    assert AtomAt(a, TailText(tail) + rest);
    if |tail| > 0 {
      TailStep(tail, rest);
      if ShiftOp(tail[0].0) {
        ShiftRead(tail[0].1, tail[1..], rest);
      }
    } else {
      assert TailText(tail) + rest == rest;
    }
  }

  lemma {:induction false} ProdRead(left: Raw, tail: Tail, rest: seq<Token>)
    requires (|tail| > 0 ==> !ShiftOp(tail[0].0)) && TailAtoms(tail) && Stops(rest)
    ensures var g := GroupProd(left, tail);
      TailAtoms(g.rest) && ProdLoop(left, TailText(tail) + rest) == Done(g.tree, TailText(g.rest) + rest)
    decreases |tail|
  {
    if |tail| > 0 {
      TailStep(tail, rest);
      if tail[0].0 == Mul {
        ShiftRead(tail[0].1, tail[1..], rest);
        var g := GroupShift(tail[0].1, tail[1..]);
        ProdRead(RBin(Mul, left, g.tree), g.rest, rest);
      }
    } else {
      assert TailText(tail) + rest == rest;
    }
  }

  lemma ProductRead(a: Atom, tail: Tail, rest: seq<Token>)
    requires IsAtom(a) && TailAtoms(tail) && Stops(rest)
    ensures var g := Product(a, tail);
      TailAtoms(g.rest) && ParseProd(a.text + (TailText(tail) + rest)) == Done(g.tree, TailText(g.rest) + rest)
  {
    ShiftRead(a, tail, rest);
    var g := GroupShift(a, tail);
    ProdRead(g.tree, g.rest, rest);
  }

  lemma {:induction false} SumRead(left: Raw, tail: Tail, rest: seq<Token>)
    requires (|tail| > 0 ==> SumOp(tail[0].0)) && TailAtoms(tail) && Stops(rest)
    ensures ExprLoop(left, TailText(tail) + rest) == Done(GroupSum(left, tail), rest)
    decreases |tail|
  {
    if |tail| > 0 {
      TailStep(tail, rest);
      ProductRead(tail[0].1, tail[1..], rest);
      var g := Product(tail[0].1, tail[1..]);
      SumRead(RBin(tail[0].0, left, g.tree), g.rest, rest);
    } else {
      assert TailText(tail) + rest == rest;
    }
  }

  /** Reading the text of a chain gives its tree and leaves what follows. */
  lemma ChainRead(c: Chain, rest: seq<Token>)
    requires Atoms(c) && Stops(rest)
    ensures ParseExpr(Text(c) + rest) == Done(Tree(c), rest)
  {
    assert Text(c) + rest == c.head.text + (TailText(c.tail) + rest);
    ProductRead(c.head, c.tail, rest);
    var g := Product(c.head, c.tail);
    SumRead(g.tree, g.rest, rest);
  }

  // ---------------------------------------------------------------- the chain of a printed expression

  function Single(a: Atom): Chain {
    Chain(a, [])
  }

  function Join(a: Chain, op: Op, b: Chain): Chain {
    Chain(a.head, a.tail + [(op, b.head)] + b.tail)
  }

  /** Parentheses turn a chain into one atom. */
  function Wrapped(nested: bool, c: Chain): Chain {
    if nested then Single(Atom([Sym("(")] + Text(c) + [Sym(")")], Tree(c))) else c
  }

  function Amount(k: nat): Chain {
    Single(Atom([Int(k, false)], RInt(k, false)))
  }

  /** How the reader hears the printed text of e. */
  function Heard(e: Expr, wide: bool, ctx: nat): Chain {
    match e
    case Name(id) => Single(Atom([Ident(id)], RName(id)))
    case Const(n) => Single(Atom(Print(Const(n), wide, 0), RInt(n, wide)))
    case Plus(a, b) => Wrapped(ctx > 0, Join(Heard(a, wide, 0), Add, Heard(b, wide, 1)))
    case Minus(a, b) => Wrapped(ctx > 0, Join(Heard(a, wide, 0), Sub, Heard(b, wide, 1)))
    case Times(a, b) => Wrapped(ctx > 1, Join(Heard(a, wide, 1), Mul, Heard(b, wide, 2)))
    case Sum(terms) => Wrapped(|terms| > 1 && ctx > 0, HeardSum(terms, wide))
    case Asr(a, k) => Wrapped(ctx > 0, Join(Heard(a, wide, 2), ShiftRight, Amount(k)))
    case Lsl(a, k) => Wrapped(ctx > 0, Join(Heard(a, wide, 2), ShiftLeft, Amount(k)))
  }

  function HeardSum(terms: seq<Expr>, wide: bool): Chain {
    if |terms| == 0 then Single(Atom([], RInt(0, wide)))
    else if |terms| == 1 then Heard(terms[0], wide, 0)
    else Join(HeardSum(terms[..|terms| - 1], wide), Add, Heard(terms[|terms| - 1], wide, 1))
  }

  /** What the generator writes: names and literals the reader accepts, and no empty sum. */
  predicate Spelled(e: Expr, wide: bool) {
    match e
    case Name(id) => Variable(id)
    case Const(n) => -Limit(wide) < n < Limit(wide)
    case Plus(a, b) => Spelled(a, wide) && Spelled(b, wide)
    case Minus(a, b) => Spelled(a, wide) && Spelled(b, wide)
    case Times(a, b) => Spelled(a, wide) && Spelled(b, wide)
    case Sum(terms) => |terms| > 0 && SpelledAll(terms, wide)
    case Asr(a, k) => Spelled(a, wide) && k < Limit(false)
    case Lsl(a, k) => Spelled(a, wide) && k < Limit(false)
  }

  predicate SpelledAll(terms: seq<Expr>, wide: bool) {
    |terms| > 0 ==> SpelledAll(terms[..|terms| - 1], wide) && Spelled(terms[|terms| - 1], wide)
  }

  lemma {:induction false} TailTextAppend(s: Tail, t: Tail)
    ensures TailText(s + t) == TailText(s) + TailText(t)
  {
    if |s| == 0 {
      assert s + t == t;
    } else {
      assert (s + t)[1..] == s[1..] + t;
      TailTextAppend(s[1..], t);
    }
  }

  lemma TailAtomsAppend(s: Tail, t: Tail)
    requires TailAtoms(s) && TailAtoms(t)
    ensures TailAtoms(s + t)
  {
    forall i | 0 <= i < |s + t| ensures IsAtom((s + t)[i].1) {
      assert (s + t)[i] == if i < |s| then s[i] else t[i - |s|];
    }
  }

  function Link(op: Op, c: Chain): Tail {
    [(op, c.head)] + c.tail
  }

  lemma LinkText(op: Op, c: Chain)
    ensures TailText(Link(op, c)) == [OpToken(op)] + Text(c)
  {
    assert Link(op, c)[1..] == c.tail;
    Associate([OpToken(op)], c.head.text, TailText(c.tail));
  }

  lemma Associate<X>(a: seq<X>, b: seq<X>, c: seq<X>)
    ensures (a + b) + c == a + (b + c)
  {
  }

  lemma JoinText(a: Chain, op: Op, b: Chain)
    requires Atoms(a) && Atoms(b)
    ensures Text(Join(a, op, b)) == Text(a) + [OpToken(op)] + Text(b)
    ensures Atoms(Join(a, op, b))
  {
    var link: Tail := [(op, b.head)];
    Associate(a.tail, link, b.tail);
    TailTextAppend(a.tail, Link(op, b));
    LinkText(op, b);
    Associate(a.head.text, TailText(a.tail), [OpToken(op)] + Text(b));
    Associate(Text(a), [OpToken(op)], Text(b));
    TailAtomsAppend(link, b.tail);
    TailAtomsAppend(a.tail, Link(op, b));
  }

  /** No atom is empty or starts with a minus sign. */
  lemma AtomStart(a: Atom)
    requires IsAtom(a)
    ensures |a.text| > 0 && a.text[0] != Sym("-")
  {
    assert AtomAt(a, []);
    assert a.text + [] == a.text;
    if a.text[0] == Sym("-") {
      MinusFails(a.text);
    }
  }

  lemma MinusFails(t: seq<Token>)
    requires |t| > 0 && t[0] == Sym("-")
    ensures ParseApp(t) == Fail
  {
    assert "-"[0] != "("[0];
    assert ParseAtom(t) == Fail;
  }

  lemma WrappedText(nested: bool, c: Chain)
    requires Atoms(c)
    ensures Text(Wrapped(nested, c)) == Parens(nested, Text(c)) && Atoms(Wrapped(nested, c))
  {
    if nested {
      var a := Atom([Sym("(")] + Text(c) + [Sym(")")], Tree(c));
      AtomStart(c.head);
      forall rest: seq<Token> ensures AtomAt(a, rest) {
        var close := [Sym(")")] + rest;
        ChainRead(c, close);
        assert (a.text + rest)[1..] == Text(c) + close;
        assert close[1..] == rest;
      }
    }
  }

  lemma NameAtom(id: string)
    requires Variable(id)
    ensures IsAtom(Atom([Ident(id)], RName(id)))
  {
    var a := Atom([Ident(id)], RName(id));
    forall rest: seq<Token> ensures AtomAt(a, rest) {
      assert (a.text + rest)[1..] == rest;
    }
  }

  lemma ConstAtom(n: int, wide: bool)
    requires -Limit(wide) < n < Limit(wide)
    ensures IsAtom(Atom(Print(Const(n), wide, 0), RInt(n, wide)))
  {
    var a := Atom(Print(Const(n), wide, 0), RInt(n, wide));
    forall rest: seq<Token> ensures AtomAt(a, rest) {
      if n >= 0 {
        assert (a.text + rest)[1..] == rest;
      } else {
        assert (a.text + rest)[4..] == rest;
      }
    }
  }

  lemma LeafIsText(e: Expr, wide: bool, ctx: nat)
    requires (e.Name? || e.Const?) && Spelled(e, wide)
    ensures Print(e, wide, ctx) == Text(Heard(e, wide, ctx)) && Atoms(Heard(e, wide, ctx))
  {
    if e.Name? {
      NameAtom(e.id);
    } else {
      ConstAtom(e.n, wide);
    }
  }

  /** The printed text is the text of the chain, and each of its atoms is read as one. */
  lemma {:induction false} PrintIsText(e: Expr, wide: bool, ctx: nat)
    requires Spelled(e, wide)
    ensures Print(e, wide, ctx) == Text(Heard(e, wide, ctx)) && Atoms(Heard(e, wide, ctx))
    decreases e, 1
  {
    match e
    case Name(_) => LeafIsText(e, wide, ctx);
    case Const(_) => LeafIsText(e, wide, ctx);
    case Plus(a, b) => BinaryText(e, a, b, wide, 0, 1, Add, ctx > 0);
    case Minus(a, b) => BinaryText(e, a, b, wide, 0, 1, Sub, ctx > 0);
    case Times(a, b) => BinaryText(e, a, b, wide, 1, 2, Mul, ctx > 1);
    case Sum(terms) => SumsText(e, terms, wide, ctx);
    case Asr(_, _) => ShiftedText(e, wide, ctx);
    case Lsl(_, _) => ShiftedText(e, wide, ctx);
  }

  lemma {:induction false} ShiftedText(e: Expr, wide: bool, ctx: nat)
    requires (e.Asr? || e.Lsl?) && Spelled(e, wide)
    ensures Print(e, wide, ctx) == Text(Heard(e, wide, ctx)) && Atoms(Heard(e, wide, ctx))
    decreases e, 0, 1
  {
    ShiftText(e, e.a, e.k, wide, if e.Asr? then ShiftRight else ShiftLeft, ctx > 0);
  }

  lemma {:induction false} SumsText(e: Expr, terms: seq<Expr>, wide: bool, ctx: nat)
    requires e == Sum(terms) && Spelled(e, wide)
    ensures Print(e, wide, ctx) == Text(Heard(e, wide, ctx)) && Atoms(Heard(e, wide, ctx))
    decreases e, 0
  {
    SumIsText(terms, wide);
    WrappedText(|terms| > 1 && ctx > 0, HeardSum(terms, wide));
  }

  lemma {:induction false} BinaryText(e: Expr, a: Expr, b: Expr, wide: bool, i: nat, j: nat, op: Op, nested: bool)
    requires a < e && b < e && Spelled(a, wide) && Spelled(b, wide)
    ensures var c := Wrapped(nested, Join(Heard(a, wide, i), op, Heard(b, wide, j)));
      Atoms(c) && Text(c) == Parens(nested, Print(a, wide, i) + [OpToken(op)] + Print(b, wide, j))
    decreases e, 0
  {
    PrintIsText(a, wide, i);
    PrintIsText(b, wide, j);
    JoinText(Heard(a, wide, i), op, Heard(b, wide, j));
    WrappedText(nested, Join(Heard(a, wide, i), op, Heard(b, wide, j)));
  }

  lemma AmountText(k: nat)
    requires k < Limit(false)
    ensures Atoms(Amount(k)) && Text(Amount(k)) == [Int(k, false)]
  {
    ConstAtom(k, false);
  }

  lemma {:induction false} ShiftText(e: Expr, a: Expr, k: nat, wide: bool, op: Op, nested: bool)
    requires a < e && Spelled(a, wide) && k < Limit(false)
    ensures var c := Wrapped(nested, Join(Heard(a, wide, 2), op, Amount(k)));
      Atoms(c) && Text(c) == Parens(nested, Print(a, wide, 2) + [OpToken(op), Int(k, false)])
    decreases e, 0, 0
  {
    var c := Join(Heard(a, wide, 2), op, Amount(k));
    PrintIsText(a, wide, 2);
    AmountText(k);
    JoinText(Heard(a, wide, 2), op, Amount(k));
    WrappedText(nested, c);
    TwoTokens(Print(a, wide, 2), OpToken(op), Int(k, false));
  }

  lemma TwoTokens(p: seq<Token>, t: Token, u: Token)
    ensures p + [t] + [u] == p + [t, u]
  {
  }

  lemma {:induction false} SumIsText(terms: seq<Expr>, wide: bool)
    requires |terms| > 0 && SpelledAll(terms, wide)
    ensures PrintSum(terms, wide) == Text(HeardSum(terms, wide)) && Atoms(HeardSum(terms, wide))
    decreases terms, 0
  {
    var n := |terms| - 1;
    if n == 0 {
      PrintIsText(terms[0], wide, 0);
    } else {
      SumIsText(terms[..n], wide);
      PrintIsText(terms[n], wide, 1);
      JoinText(HeardSum(terms[..n], wide), Add, Heard(terms[n], wide, 1));
    }
  }

  // ---------------------------------------------------------------- how a join is grouped

  predicate NoSums(tail: Tail) {
    forall i :: 0 <= i < |tail| ==> !SumOp(tail[i].0)
  }

  predicate OnlyShifts(tail: Tail) {
    forall i :: 0 <= i < |tail| ==> ShiftOp(tail[i].0)
  }

  function Leaves(r: Raw): nat {
    if r.RBin? then Leaves(r.a) + Leaves(r.b) else 1
  }

  function TailLeaves(tail: Tail): nat {
    if |tail| == 0 then 0 else Leaves(tail[0].1.tree) + TailLeaves(tail[1..])
  }

  function ChainLeaves(c: Chain): nat {
    Leaves(c.head.tree) + TailLeaves(c.tail)
  }

  lemma {:induction false} ShiftLeaves(a: Atom, tail: Tail)
    ensures var g := GroupShift(a, tail); Leaves(g.tree) + TailLeaves(g.rest) == ChainLeaves(Chain(a, tail))
    decreases |tail|
  {
    if |tail| > 0 && ShiftOp(tail[0].0) {
      ShiftLeaves(tail[0].1, tail[1..]);
    }
  }

  lemma {:induction false} ProdLeaves(left: Raw, tail: Tail)
    requires |tail| > 0 ==> !ShiftOp(tail[0].0)
    ensures var g := GroupProd(left, tail); Leaves(g.tree) + TailLeaves(g.rest) == Leaves(left) + TailLeaves(tail)
    decreases |tail|
  {
    if |tail| > 0 && tail[0].0 == Mul {
      ShiftLeaves(tail[0].1, tail[1..]);
      var g := GroupShift(tail[0].1, tail[1..]);
      ProdLeaves(RBin(Mul, left, g.tree), g.rest);
    }
  }

  lemma ProductLeaves(a: Atom, tail: Tail)
    ensures var g := Product(a, tail); Leaves(g.tree) + TailLeaves(g.rest) == ChainLeaves(Chain(a, tail))
  {
    ShiftLeaves(a, tail);
    var g := GroupShift(a, tail);
    ProdLeaves(g.tree, g.rest);
  }

  lemma {:induction false} SumLeaves(left: Raw, tail: Tail)
    requires |tail| > 0 ==> SumOp(tail[0].0)
    ensures Leaves(GroupSum(left, tail)) == Leaves(left) + TailLeaves(tail)
    decreases |tail|
  {
    if |tail| > 0 {
      ProductLeaves(tail[0].1, tail[1..]);
      var g := Product(tail[0].1, tail[1..]);
      SumLeaves(RBin(tail[0].0, left, g.tree), g.rest);
    }
  }

  lemma TreeLeaves(c: Chain)
    ensures Leaves(Tree(c)) == ChainLeaves(c)
  {
    ProductLeaves(c.head, c.tail);
    var g := Product(c.head, c.tail);
    SumLeaves(g.tree, g.rest);
  }

  lemma LeavesPositive(r: Raw)
    ensures Leaves(r) >= 1
  {
  }

  /** A shift group ends before the first other operator. */
  lemma {:induction false} ShiftSplit(a: Atom, s: Tail, t: Tail)
    requires |t| > 0 && !ShiftOp(t[0].0)
    ensures GroupShift(a, s + t) == Grouped(GroupShift(a, s).tree, GroupShift(a, s).rest + t)
    decreases |s|
  {
    if |s| == 0 {
      assert s + t == t && GroupShift(a, s).rest + t == t;
    } else {
      assert (s + t)[1..] == s[1..] + t;
      if ShiftOp(s[0].0) {
        ShiftSplit(s[0].1, s[1..], t);
      }
    }
  }

  /** A product ends before the first sum operator. */
  lemma {:induction false} ProdSplit(left: Raw, s: Tail, t: Tail)
    requires |t| > 0 && SumOp(t[0].0) && (|s| > 0 ==> !ShiftOp(s[0].0))
    ensures GroupProd(left, s + t) == Grouped(GroupProd(left, s).tree, GroupProd(left, s).rest + t)
    decreases |s|
  {
    if |s| == 0 {
      assert s + t == t && GroupProd(left, s).rest + t == t;
    } else {
      assert (s + t)[1..] == s[1..] + t;
      if s[0].0 == Mul {
        ShiftSplit(s[0].1, s[1..], t);
        var g := GroupShift(s[0].1, s[1..]);
        ProdSplit(RBin(Mul, left, g.tree), g.rest, t);
      }
    }
  }

  lemma ProductSplit(a: Atom, s: Tail, t: Tail)
    requires |t| > 0 && SumOp(t[0].0)
    ensures Product(a, s + t) == Grouped(Product(a, s).tree, Product(a, s).rest + t)
  {
    ShiftSplit(a, s, t);
    var g := GroupShift(a, s);
    ProdSplit(g.tree, g.rest, t);
  }

  lemma {:induction false} SumSplit(left: Raw, s: Tail, t: Tail)
    requires |t| > 0 && SumOp(t[0].0) && (|s| > 0 ==> SumOp(s[0].0))
    ensures GroupSum(left, s + t) == GroupSum(GroupSum(left, s), t)
    decreases |s|
  {
    if |s| == 0 {
      assert s + t == t;
    } else {
      assert (s + t)[1..] == s[1..] + t;
      ProductSplit(s[0].1, s[1..], t);
      var g := Product(s[0].1, s[1..]);
      SumSplit(RBin(s[0].0, left, g.tree), g.rest, t);
    }
  }

  /** A sum operator applies to everything before it. */
  lemma SumJoin(f: Chain, op: Op, g: Chain)
    requires SumOp(op)
    ensures Tree(Join(f, op, g)) == GroupSum(Tree(f), Link(op, g))
  {
    assert Join(f, op, g).tail == f.tail + Link(op, g);
    ProductSplit(f.head, f.tail, Link(op, g));
    var p := Product(f.head, f.tail);
    SumSplit(p.tree, p.rest, Link(op, g));
  }

  lemma {:induction false} ShiftKeeps(a: Atom, tail: Tail)
    ensures var g := GroupShift(a, tail);
      && (NoSums(tail) <==> NoSums(g.rest)) && (OnlyShifts(tail) <==> g.rest == [])
    decreases |tail|
  {
    if |tail| > 0 && ShiftOp(tail[0].0) {
      ShiftKeeps(tail[0].1, tail[1..]);
      assert forall i :: 1 <= i < |tail| ==> tail[i] == tail[1..][i - 1];
      assert NoSums(tail) <==> NoSums(tail[1..]);
      assert OnlyShifts(tail) <==> OnlyShifts(tail[1..]);
    }
  }

  lemma {:induction false} ProdKeeps(left: Raw, tail: Tail)
    requires |tail| > 0 ==> !ShiftOp(tail[0].0)
    ensures NoSums(tail) <==> GroupProd(left, tail).rest == []
    decreases |tail|
  {
    if |tail| > 0 && tail[0].0 == Mul {
      ShiftKeeps(tail[0].1, tail[1..]);
      var g := GroupShift(tail[0].1, tail[1..]);
      ProdKeeps(RBin(Mul, left, g.tree), g.rest);
      assert forall i :: 1 <= i < |tail| ==> tail[i] == tail[1..][i - 1];
      assert NoSums(tail) <==> NoSums(tail[1..]);
    }
  }

  /** The first product takes the whole chain exactly when no sum operator is in it. */
  lemma ProductKeeps(a: Atom, tail: Tail)
    ensures NoSums(tail) <==> Product(a, tail).rest == []
  {
    ShiftKeeps(a, tail);
    var g := GroupShift(a, tail);
    ProdKeeps(g.tree, g.rest);
  }

  /** With a sum operator the tree is a sum whose right side is the last product alone. */
  lemma {:induction false} SumOnTop(left: Raw, tail: Tail)
    requires |tail| > 0 && SumOp(tail[0].0)
    ensures var r := GroupSum(left, tail);
      && r.RBin? && SumOp(r.op) && Leaves(r.b) <= TailLeaves(tail)
      && (!NoSums(tail[1..]) ==> Leaves(r.b) < TailLeaves(tail))
    decreases |tail|
  {
    ProductLeaves(tail[0].1, tail[1..]);
    ProductKeeps(tail[0].1, tail[1..]);
    var g := Product(tail[0].1, tail[1..]);
    LeavesPositive(g.tree);
    if |g.rest| > 0 {
      SumOnTop(RBin(tail[0].0, left, g.tree), g.rest);
    }
  }

  /** Joining by a sum operator keeps the operands apart exactly when no sum operator is loose in
      the right one. */
  lemma SumCase(f: Chain, op: Op, g: Chain, a: Raw, b: Raw)
    requires SumOp(op) && ChainLeaves(g) == Leaves(b)
    ensures Tree(Join(f, op, g)) == RBin(op, a, b) <==> NoSums(g.tail) && Tree(f) == a && Tree(g) == b
  {
    SumJoin(f, op, g);
    var t := Link(op, g);
    assert t[1..] == g.tail;
    SumOnTop(Tree(f), t);
    ProductKeeps(g.head, g.tail);
  }

  lemma SumChain(c: Chain)
    requires !NoSums(c.tail)
    ensures Tree(c).RBin? && SumOp(Tree(c).op)
  {
    ProductKeeps(c.head, c.tail);
    var g := Product(c.head, c.tail);
    SumOnTop(g.tree, g.rest);
  }

  lemma {:induction false} ProdJoin(left: Raw, s: Tail, t: Tail)
    requires |t| > 0 && t[0].0 == Mul && NoSums(s) && (|s| > 0 ==> !ShiftOp(s[0].0))
    ensures GroupProd(left, s + t) == GroupProd(GroupProd(left, s).tree, t)
    decreases |s|
  {
    if |s| == 0 {
      assert s + t == t;
    } else {
      assert (s + t)[1..] == s[1..] + t;
      ShiftSplit(s[0].1, s[1..], t);
      ShiftKeeps(s[0].1, s[1..]);
      var g := GroupShift(s[0].1, s[1..]);
      assert NoSums(s[1..]);
      ProdJoin(RBin(Mul, left, g.tree), g.rest, t);
    }
  }

  /** Without sum operators, a product whose right side is the last shift group alone. */
  lemma {:induction false} ProdOnTop(left: Raw, tail: Tail)
    requires |tail| > 0 && tail[0].0 == Mul && NoSums(tail)
    ensures var r := GroupProd(left, tail).tree;
      && r.RBin? && r.op == Mul && Leaves(r.b) <= TailLeaves(tail)
      && (!OnlyShifts(tail[1..]) ==> Leaves(r.b) < TailLeaves(tail))
    decreases |tail|
  {
    ShiftLeaves(tail[0].1, tail[1..]);
    ShiftKeeps(tail[0].1, tail[1..]);
    var g := GroupShift(tail[0].1, tail[1..]);
    assert NoSums(tail[1..]);
    LeavesPositive(g.tree);
    if |g.rest| > 0 {
      ProdOnTop(RBin(Mul, left, g.tree), g.rest);
    }
  }

  lemma MulJoin(f: Chain, g: Chain)
    requires NoSums(f.tail) && NoSums(g.tail)
    ensures Tree(Join(f, Mul, g)) == GroupProd(Tree(f), Link(Mul, g)).tree && NoSums(Link(Mul, g))
  {
    var t, p := Link(Mul, g), GroupShift(f.head, f.tail);
    assert Join(f, Mul, g).tail == f.tail + t;
    ShiftSplit(f.head, f.tail, t);
    ShiftKeeps(f.head, f.tail);
    ProdJoin(p.tree, p.rest, t);
    ProductKeeps(f.head, f.tail);
    assert NoSums(t);
    ProductKeeps(f.head, f.tail + t);
  }

  lemma NoSumsAppend(s: Tail, t: Tail)
    ensures NoSums(s + t) <==> NoSums(s) && NoSums(t)
  {
    assert forall i :: 0 <= i < |s| ==> (s + t)[i] == s[i];
    assert forall i :: 0 <= i < |t| ==> (s + t)[|s| + i] == t[i];
  }

  lemma OnlyShiftsAppend(s: Tail, t: Tail)
    ensures OnlyShifts(s + t) <==> OnlyShifts(s) && OnlyShifts(t)
  {
    assert forall i :: 0 <= i < |s| ==> (s + t)[i] == s[i];
    assert forall i :: 0 <= i < |t| ==> (s + t)[|s| + i] == t[i];
  }

  lemma JoinLevels(f: Chain, op: Op, g: Chain)
    ensures NoSums(Join(f, op, g).tail) <==> NoSums(f.tail) && NoSums(g.tail) && !SumOp(op)
    ensures OnlyShifts(Join(f, op, g).tail) <==> OnlyShifts(f.tail) && OnlyShifts(g.tail) && ShiftOp(op)
    ensures Join(f, op, g).tail != []
  {
    var link: Tail := [(op, g.head)];
    assert link[0].0 == op;
    NoSumsAppend(f.tail + link, g.tail);
    NoSumsAppend(f.tail, link);
    OnlyShiftsAppend(f.tail + link, g.tail);
    OnlyShiftsAppend(f.tail, link);
  }

  /** Joining by a product keeps the operands apart exactly when no sum operator is loose in the
      left one and no sum or product in the right one. */
  lemma MulCase(f: Chain, g: Chain, a: Raw, b: Raw)
    requires ChainLeaves(g) == Leaves(b)
    ensures Tree(Join(f, Mul, g)) == RBin(Mul, a, b)
       <==> NoSums(f.tail) && OnlyShifts(g.tail) && Tree(f) == a && Tree(g) == b
  {
    var c, t := Join(f, Mul, g), Link(Mul, g);
    if NoSums(f.tail) && NoSums(g.tail) {
      MulJoin(f, g);
      assert t[1..] == g.tail;
      ProdOnTop(Tree(f), t);
      ShiftKeeps(g.head, g.tail);
    } else {
      JoinLevels(f, Mul, g);
      SumChain(c);
      assert OnlyShifts(g.tail) ==> NoSums(g.tail);
    }
  }

  /** Joining a shift amount keeps the operand apart exactly when the operand is one atom. */
  lemma ShiftCase(f: Chain, op: Op, k: nat, a: Raw)
    requires ShiftOp(op)
    ensures Tree(Join(f, op, Amount(k))) == RBin(op, a, RInt(k, false)) <==> f.tail == [] && Tree(f) == a
  {
    var c := Join(f, op, Amount(k));
    assert c.tail == f.tail + [(op, Amount(k).head)];
    if f.tail == [] {
      assert c.tail[1..] == [];
      assert GroupShift(c.head, c.tail) == Grouped(RBin(op, f.head.tree, RInt(k, false)), []);
      assert Tree(f) == f.head.tree;
    } else if OnlyShifts(f.tail) {
      ShiftKeeps(c.head, c.tail);
      assert c.tail[1..] == f.tail[1..] + [(op, Amount(k).head)];
      assert ShiftOp(c.tail[1].0);
    } else {
      JoinLevels(f, op, Amount(k));
      if NoSums(f.tail) {
        LooseProduct(c);
      } else {
        SumChain(c);
      }
    }
  }

  lemma LooseProduct(c: Chain)
    requires NoSums(c.tail) && !OnlyShifts(c.tail)
    ensures Tree(c).RBin? && Tree(c).op == Mul
  {
    ShiftKeeps(c.head, c.tail);
    ProductKeeps(c.head, c.tail);
    var g := GroupShift(c.head, c.tail);
    assert g.rest[0].0 == Mul;
    ProdOnTop(g.tree, g.rest);
  }

  // ---------------------------------------------------------------- when printing can be undone

  /** The tightest grammar level the printed text belongs to: 0 sum, 1 product, 2 shift, 3 atom. */
  function Level(e: Expr, ctx: nat): nat {
    match e
    case Name(_) => 3
    case Const(_) => 3
    case Plus(_, _) => if ctx > 0 then 3 else 0
    case Minus(_, _) => if ctx > 0 then 3 else 0
    case Times(_, _) => if ctx > 1 then 3 else 1
    case Sum(terms) => if |terms| == 0 then 3 else if |terms| == 1 then Level(terms[0], 0) else if ctx > 0 then 3 else 0
    case Asr(_, _) => if ctx > 0 then 3 else 2
    case Lsl(_, _) => if ctx > 0 then 3 else 2
  }

  /** Every one-term sum, which the printer never puts in parentheses, stands where its term needs
      none. */
  predicate Bracketed(e: Expr) {
    match e
    case Name(_) => true
    case Const(_) => true
    case Plus(a, b) => Bracketed(a) && Bracketed(b) && Level(b, 1) >= 1
    case Minus(a, b) => Bracketed(a) && Bracketed(b) && Level(b, 1) >= 1
    case Times(a, b) => Bracketed(a) && Bracketed(b) && Level(a, 1) >= 1 && Level(b, 2) >= 2
    case Sum(terms) => BracketedSum(terms)
    case Asr(a, _) => Bracketed(a) && Level(a, 2) >= 3
    case Lsl(a, _) => Bracketed(a) && Level(a, 2) >= 3
  }

  predicate BracketedSum(terms: seq<Expr>) {
    |terms| > 0 ==>
      && Bracketed(terms[|terms| - 1])
      && (|terms| > 1 ==> Level(terms[|terms| - 1], 1) >= 1 && BracketedSum(terms[..|terms| - 1]))
  }

  /** The level of an expression is the loosest operator outside parentheses in its text. */
  lemma {:induction false} LevelMeans(e: Expr, wide: bool, ctx: nat)
    requires Bracketed(e)
    ensures var t := Heard(e, wide, ctx).tail;
      && (NoSums(t) <==> Level(e, ctx) >= 1) && (OnlyShifts(t) <==> Level(e, ctx) >= 2)
      && (t == [] <==> Level(e, ctx) >= 3)
    decreases e
  {
    match e
    case Name(_) =>
    case Const(_) =>
    case Plus(a, b) => JoinLevels(Heard(a, wide, 0), Add, Heard(b, wide, 1));
    case Minus(a, b) => JoinLevels(Heard(a, wide, 0), Sub, Heard(b, wide, 1));
    case Times(a, b) =>
      LevelMeans(a, wide, 1);
      LevelMeans(b, wide, 2);
      JoinLevels(Heard(a, wide, 1), Mul, Heard(b, wide, 2));
    case Sum(terms) =>
      var n := |terms| - 1;
      if n == 0 {
        LevelMeans(terms[0], wide, 0);
      } else if n > 0 {
        JoinLevels(HeardSum(terms[..n], wide), Add, Heard(terms[n], wide, 1));
      }
    case Asr(a, k) =>
      LevelMeans(a, wide, 2);
      JoinLevels(Heard(a, wide, 2), ShiftRight, Amount(k));
    case Lsl(a, k) =>
      LevelMeans(a, wide, 2);
      JoinLevels(Heard(a, wide, 2), ShiftLeft, Amount(k));
  }

  lemma WrappedTree(nested: bool, c: Chain)
    ensures Tree(Wrapped(nested, c)) == Tree(c) && ChainLeaves(Wrapped(nested, c)) == ChainLeaves(c)
  {
    TreeLeaves(c);
  }

  lemma {:induction false} TailLeavesAppend(s: Tail, t: Tail)
    ensures TailLeaves(s + t) == TailLeaves(s) + TailLeaves(t)
  {
    if |s| == 0 {
      assert s + t == t;
    } else {
      assert (s + t)[1..] == s[1..] + t;
      TailLeavesAppend(s[1..], t);
    }
  }

  lemma JoinLeaves(f: Chain, op: Op, g: Chain)
    ensures ChainLeaves(Join(f, op, g)) == ChainLeaves(f) + ChainLeaves(g)
  {
    var t := Link(op, g);
    assert t[1..] == g.tail && Join(f, op, g).tail == f.tail + t;
    TailLeavesAppend(f.tail, t);
  }

  /** The chain has the leaves of the intended tree, however it is grouped. */
  lemma {:induction false} HeardLeaves(e: Expr, wide: bool, ctx: nat)
    ensures ChainLeaves(Heard(e, wide, ctx)) == Leaves(ToRaw(e, wide))
    decreases e, 1
  {
    match e
    case Name(_) =>
    case Const(_) =>
    case Plus(a, b) => BinaryLeaves(e, a, b, wide, 0, 1, Add, ctx > 0);
    case Minus(a, b) => BinaryLeaves(e, a, b, wide, 0, 1, Sub, ctx > 0);
    case Times(a, b) => BinaryLeaves(e, a, b, wide, 1, 2, Mul, ctx > 1);
    case Sum(terms) =>
      SumChainLeaves(terms, wide);
      WrappedTree(|terms| > 1 && ctx > 0, HeardSum(terms, wide));
    case Asr(a, k) => ShiftedLeaves(e, a, k, wide, ShiftRight, ctx > 0);
    case Lsl(a, k) => ShiftedLeaves(e, a, k, wide, ShiftLeft, ctx > 0);
  }

  lemma {:induction false} BinaryLeaves(e: Expr, a: Expr, b: Expr, wide: bool, i: nat, j: nat, op: Op, nested: bool)
    requires a < e && b < e
    ensures ChainLeaves(Wrapped(nested, Join(Heard(a, wide, i), op, Heard(b, wide, j))))
         == Leaves(ToRaw(a, wide)) + Leaves(ToRaw(b, wide))
    decreases e, 0
  {
    HeardLeaves(a, wide, i);
    HeardLeaves(b, wide, j);
    JoinLeaves(Heard(a, wide, i), op, Heard(b, wide, j));
    WrappedTree(nested, Join(Heard(a, wide, i), op, Heard(b, wide, j)));
  }

  lemma {:induction false} ShiftedLeaves(e: Expr, a: Expr, k: nat, wide: bool, op: Op, nested: bool)
    requires a < e
    ensures ChainLeaves(Wrapped(nested, Join(Heard(a, wide, 2), op, Amount(k)))) == Leaves(ToRaw(a, wide)) + 1
    decreases e, 0
  {
    HeardLeaves(a, wide, 2);
    JoinLeaves(Heard(a, wide, 2), op, Amount(k));
    WrappedTree(nested, Join(Heard(a, wide, 2), op, Amount(k)));
  }

  lemma {:induction false} SumChainLeaves(terms: seq<Expr>, wide: bool)
    ensures ChainLeaves(HeardSum(terms, wide)) == Leaves(SumToRaw(terms, wide))
    decreases terms, 0
  {
    var n := |terms| - 1;
    if n == 0 {
      HeardLeaves(terms[0], wide, 0);
    } else if n > 0 {
      SumChainLeaves(terms[..n], wide);
      HeardLeaves(terms[n], wide, 1);
      JoinLeaves(HeardSum(terms[..n], wide), Add, Heard(terms[n], wide, 1));
    }
  }

  /** The reader groups the text as the generator meant it exactly when the expression is
      bracketed. */
  lemma {:induction false} HeardIff(e: Expr, wide: bool, ctx: nat)
    ensures Tree(Heard(e, wide, ctx)) == ToRaw(e, wide) <==> Bracketed(e)
    decreases e, 1
  {
    match e
    case Name(_) =>
    case Const(_) =>
    case Plus(a, b) => SumOpIff(e, a, b, Add, wide, ctx > 0);
    case Minus(a, b) => SumOpIff(e, a, b, Sub, wide, ctx > 0);
    case Times(a, b) => TimesIff(e, a, b, wide, ctx > 1);
    case Sum(terms) =>
      SumIff(terms, wide);
      WrappedTree(|terms| > 1 && ctx > 0, HeardSum(terms, wide));
    case Asr(a, k) => ShiftIff(e, a, k, ShiftRight, wide, ctx > 0);
    case Lsl(a, k) => ShiftIff(e, a, k, ShiftLeft, wide, ctx > 0);
  }

  lemma {:induction false} SumOpIff(e: Expr, a: Expr, b: Expr, op: Op, wide: bool, nested: bool)
    requires a < e && b < e && SumOp(op)
    ensures Tree(Wrapped(nested, Join(Heard(a, wide, 0), op, Heard(b, wide, 1)))) == RBin(op, ToRaw(a, wide), ToRaw(b, wide))
       <==> Bracketed(Plus(a, b))
    decreases e, 0
  {
    WrappedTree(nested, Join(Heard(a, wide, 0), op, Heard(b, wide, 1)));
    HeardIff(a, wide, 0);
    HeardIff(b, wide, 1);
    HeardLeaves(b, wide, 1);
    SumCase(Heard(a, wide, 0), op, Heard(b, wide, 1), ToRaw(a, wide), ToRaw(b, wide));
    if Bracketed(b) {
      LevelMeans(b, wide, 1);
    }
  }

  lemma {:induction false} TimesIff(e: Expr, a: Expr, b: Expr, wide: bool, nested: bool)
    requires a < e && b < e
    ensures Tree(Wrapped(nested, Join(Heard(a, wide, 1), Mul, Heard(b, wide, 2)))) == RBin(Mul, ToRaw(a, wide), ToRaw(b, wide))
       <==> Bracketed(Times(a, b))
    decreases e, 0
  {
    WrappedTree(nested, Join(Heard(a, wide, 1), Mul, Heard(b, wide, 2)));
    HeardIff(a, wide, 1);
    HeardIff(b, wide, 2);
    HeardLeaves(b, wide, 2);
    MulCase(Heard(a, wide, 1), Heard(b, wide, 2), ToRaw(a, wide), ToRaw(b, wide));
    if Bracketed(a) && Bracketed(b) {
      LevelMeans(a, wide, 1);
      LevelMeans(b, wide, 2);
    }
  }

  lemma {:induction false} ShiftIff(e: Expr, a: Expr, k: nat, op: Op, wide: bool, nested: bool)
    requires a < e && ShiftOp(op)
    ensures Tree(Wrapped(nested, Join(Heard(a, wide, 2), op, Amount(k)))) == RBin(op, ToRaw(a, wide), RInt(k, false))
       <==> Bracketed(Asr(a, k))
    decreases e, 0
  {
    WrappedTree(nested, Join(Heard(a, wide, 2), op, Amount(k)));
    HeardIff(a, wide, 2);
    ShiftCase(Heard(a, wide, 2), op, k, ToRaw(a, wide));
    if Bracketed(a) {
      LevelMeans(a, wide, 2);
    }
  }

  lemma {:induction false} SumIff(terms: seq<Expr>, wide: bool)
    ensures Tree(HeardSum(terms, wide)) == SumToRaw(terms, wide) <==> BracketedSum(terms)
    decreases terms, 0
  {
    var n := |terms| - 1;
    if n == 0 {
      HeardIff(terms[0], wide, 0);
    } else if n > 0 {
      SumIff(terms[..n], wide);
      HeardIff(terms[n], wide, 1);
      HeardLeaves(terms[n], wide, 1);
      SumCase(HeardSum(terms[..n], wide), Add, Heard(terms[n], wide, 1), SumToRaw(terms[..n], wide), ToRaw(terms[n], wide));
      if Bracketed(terms[n]) {
        LevelMeans(terms[n], wide, 1);
      }
    }
  }

  /** Every printed expression is read as some tree. */
  lemma ReadsAsTree(e: Expr, wide: bool, rest: seq<Token>)
    requires Spelled(e, wide) && Stops(rest)
    ensures ParseExpr(Print(e, wide, 0) + rest) == Done(Tree(Heard(e, wide, 0)), rest)
  {
    PrintIsText(e, wide, 0);
    ChainRead(Heard(e, wide, 0), rest);
  }

  /** Printing and then reading returns the tree, with n-ary sums nested to the left, exactly for
      the expressions whose one-term sums stand where they need no parentheses. */
  lemma RoundTripIff(e: Expr, wide: bool, rest: seq<Token>)
    requires Spelled(e, wide) && Stops(rest)
    ensures ParseExpr(Print(e, wide, 0) + rest) == Done(ToRaw(e, wide), rest) <==> Bracketed(e)
  {
    ReadsAsTree(e, wide, rest);
    HeardIff(e, wide, 0);
  }

  /** Outside the condition the printer does omit a parenthesis the reader needs: a sum of one
      sum, multiplied, is read as a sum with a product in it. */
  lemma UnreadableExample(x: string, y: string, z: string)
    requires Variable(x) && Variable(y) && Variable(z)
    ensures var e := Times(Sum([Plus(Name(x), Name(y))]), Name(z));
      && Spelled(e, false) && !Bracketed(e)
      && ParseExpr(Print(e, false, 0) + [Eof])
         == Done(RBin(Add, RName(x), RBin(Mul, RName(y), RName(z))), [Eof])
      && ToRaw(e, false) == RBin(Mul, RBin(Add, RName(x), RName(y)), RName(z))
  {
    var xs, ys, zs := Name(x), Name(y), Name(z);
    var sum, product := Plus(xs, ys), Times(ys, zs);
    var one := Sum([sum]);
    var e, f := Times(one, zs), Plus(xs, product);
    assert one.terms[..0] == [];
    assert Spelled(sum, false) && SpelledAll(one.terms, false);
    assert Print(xs, false, 0) == [Ident(x)] && Print(ys, false, 1) == [Ident(y)];
    assert Print(sum, false, 0) == [Ident(x)] + [Sym("+")] + [Ident(y)];
    assert PrintSum(one.terms, false) == Print(one.terms[0], false, 0) == Print(sum, false, 0);
    assert Print(one, false, 1) == PrintSum(one.terms, false);
    assert Print(product, false, 1) == [Ident(y), Sym("*"), Ident(z)];
    assert Print(e, false, 0) == Print(f, false, 0) == [Ident(x), Sym("+"), Ident(y), Sym("*"), Ident(z)];
    assert ToRaw(xs, false) == RName(x) && ToRaw(ys, false) == RName(y) && ToRaw(zs, false) == RName(z);
    assert ToRaw(sum, false) == RBin(Add, RName(x), RName(y));
    assert SumToRaw(one.terms, false) == ToRaw(one.terms[0], false) == ToRaw(sum, false);
    assert ToRaw(product, false) == RBin(Mul, RName(y), RName(z));
    assert Bracketed(xs) && Bracketed(ys) && Bracketed(zs) && Level(ys, 1) == Level(zs, 2) == 3;
    assert Spelled(product, false) && Bracketed(product);
    assert Level(sum, 0) == Level(one, 1) == 0 && Level(product, 1) == 1;
    RoundTripIff(f, false, [Eof]);
  }

  /** The printed tokens, run through the stream, come back as the tree with only the end left. */
  method ReadBack(e: Expr, wide: bool) returns (tree: Option<Raw>)
    requires Spelled(e, wide)
    ensures tree == Some(ToRaw(e, wide)) <==> Bracketed(e)
  {
    var s := new Stream(Print(e, wide, 0) + [Eof]);
    RoundTripIff(e, wide, [Eof]);
    ReadsAsTree(e, wide, [Eof]);
    assert s.toks[0..] == s.toks;
    tree := s.Expr();
  }
}
