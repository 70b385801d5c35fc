/** A whole kernel as text: what the generator emits, the function grammar of the reader, and the
    theorem that the indexed statements the reader arrives at compute what the generator's
    program computes. */
module KernelText {
  import opened Wrappers
  import opened KernelProgram
  import opened KernelSyntax
  import opened KernelSsa
  import A = KernelAnalysis
  import T = KernelRoundTrip

  // ---------------------------------------------------------------- the function grammar

  datatype Parsed<+X> = No | Yes(value: X, rest: seq<Token>)

  predicate Named(t: seq<Token>, i: nat) {
    i < |t| && t[i].Ident? && !Keyword(t[i].text)
  }

  /** `(p : int)` or `(p : int array)` */
  function ParseParam(t: seq<Token>): (r: Parsed<Param>)
    ensures r.Yes? ==> |r.rest| < |t|
  {
    if |t| > 4 && t[0] == Sym("(") && Named(t, 1) && t[2] == Sym(":") && t[3] == Ident("int") then
      if t[4] == Sym(")") then Yes(Param(t[1].text, Scalar), t[5..])
      else if t[4] == Ident("array") && |t| > 5 && t[5] == Sym(")") then Yes(Param(t[1].text, IntArray), t[6..])
      else No
    else No
  }

  function ParseParams(t: seq<Token>): (r: Parsed<seq<Param>>)
    ensures r.Yes? ==> |r.rest| <= |t|
    decreases |t|
  {
    if |t| > 0 && t[0] == Sym("(") then
      match ParseParam(t)
      case No => No
      case Yes(p, rest) => After([p], ParseParams(rest))
    else Yes([], t)
  }

  /** Items already read, in front of what is read next. */
  function After<X>(done: seq<X>, r: Parsed<seq<X>>): Parsed<seq<X>> {
    match r
    case No => No
    case Yes(more, rest) => Yes(done + more, rest)
  }

  /** `let v = expr in` */
  function ParseLet(t: seq<Token>): (r: Parsed<Let>)
    ensures r.Yes? ==> |r.rest| < |t|
  {
    if |t| > 3 && t[0] == Ident("let") && Named(t, 1) && t[2] == Sym("=") then
      match ParseExpr(t[3..])
      case Fail => No
      case Done(e, rest) => if |rest| > 0 && rest[0] == Ident("in") then Yes(Let(t[1].text, e), rest[1..]) else No
    else No
  }

  function ParseLets(t: seq<Token>): (r: Parsed<seq<Let>>)
    ensures r.Yes? ==> |r.rest| <= |t|
    decreases |t|
  {
    if |t| > 0 && t[0] == Ident("let") then
      match ParseLet(t)
      case No => No
      case Yes(l, rest) => After([l], ParseLets(rest))
    else Yes([], t)
  }

  /** `Array.unsafe_set arr index v` or `Array.unsafe_set arr index (to_int v)` */
  function ParseStore(t: seq<Token>): (r: Parsed<Store>)
    ensures r.Yes? ==> |r.rest| < |t|
  {
    if |t| > 3 && t[0] == Qual("Array.unsafe_set") && Named(t, 1) && t[2].Int? && !t[2].wide then
      if t[3] == Sym("(") then
        if |t| > 6 && t[4] == Ident("to_int") && Named(t, 5) && t[6] == Sym(")")
        then Yes(Store(t[1].text, t[2].value, RToInt(RName(t[5].text))), t[7..])
        else No
      else if Named(t, 3) then Yes(Store(t[1].text, t[2].value, RName(t[3].text)), t[4..])
      else No
    else No
  }

  /** At least one store, separated by semicolons. */
  function ParseStores(t: seq<Token>): (r: Parsed<seq<Store>>)
    ensures r.Yes? ==> |r.rest| < |t|
    decreases |t|
  {
    match ParseStore(t)
    case No => No
    case Yes(s, rest) =>
      if |rest| > 0 && rest[0] == Sym(";") then After([s], ParseStores(rest[1..])) else Yes([s], rest)
  }

  datatype NamedFunction = NamedFunction(name: string, body: Function)

  predicate Distinct(params: seq<Param>) {
    forall i, j :: 0 <= i < j < |params| ==> params[i].name != params[j].name
  }

  function ParseHead(t: seq<Token>): Parsed<seq<Param>> {
    if |t| > 2 && t[0] == Ident("let") && t[1] == Attr && Named(t, 2) then
      match ParseParams(t[3..])
      case No => No
      case Yes(ps, rest) =>
        if |rest| > 2 && rest[0] == Sym(":") && rest[1] == Ident("unit") && rest[2] == Sym("=")
           && |ps| > 0 && ps[0] == Param("out", IntArray) && Distinct(ps)
        then Yes(ps, rest[3..])
        else No
    else No
  }

  predicate OpensWide(t: seq<Token>) {
    |t| > 1 && t[0] == Ident("let") && t[1] == Ident("open")
  }

  /** The next function starts, or the text ends. */
  predicate Ends(t: seq<Token>) {
    |t| > 0 && (t[0] == Ident("let") || t[0] == Eof)
  }

  function ParseBody(name: string, params: seq<Param>, wide: bool, t: seq<Token>): Parsed<NamedFunction> {
    match ParseLets(t)
    case No => No
    case Yes(lets, rest) =>
      match ParseStores(rest)
      case No => No
      case Yes(stores, last) =>
        if Ends(last) then Yes(NamedFunction(name, Function(params, wide, lets, stores)), last) else No
  }

  /** `parse_function` */
  function ParseFunction(t: seq<Token>): Parsed<NamedFunction> {
    match ParseHead(t)
    case No => No
    case Yes(ps, rest) =>
      if OpensWide(rest) then
        if |rest| > 3 && rest[2] == Upper("Wide") && rest[3] == Ident("in") then ParseBody(t[2].text, ps, true, rest[4..]) else No
      else ParseBody(t[2].text, ps, false, rest)
  }

  // ---------------------------------------------------------------- the reader's loops

  predicate Matches<X(==)>(p: Parsed<X>, v: Option<X>, toks: seq<Token>, pos: nat) {
    match p
    case No => v.None?
    case Yes(x, rest) => v == Some(x) && pos <= |toks| && toks[pos..] == rest
  }

  /** Moves past n tokens. */
  method Skip(s: Stream, n: nat)
    requires s.pos + n <= |s.toks|
    modifies s
    ensures s.pos == old(s.pos) + n && s.toks[s.pos..] == old(s.toks[s.pos..])[n..]
  {
    s.pos := s.pos + n;
  }

  method ReadParams(s: Stream) returns (ps: Option<seq<Param>>)
    requires s.pos <= |s.toks|
    modifies s
    ensures Matches(ParseParams(old(s.toks[s.pos..])), ps, s.toks, s.pos)
  {
    var done: seq<Param> := [];
    AfterNothing(ParseParams(s.toks[s.pos..]));
    while s.pos < |s.toks| && s.toks[s.pos] == Sym("(")
      invariant s.pos <= |s.toks|
      invariant ParseParams(old(s.toks[s.pos..])) == After(done, ParseParams(s.toks[s.pos..]))
      decreases |s.toks| - s.pos
    {
      var t := s.toks[s.pos..];
      var p := ParseParam(t);
      if p.No? {
        return None;
      }
      AfterAfter(done, [p.value], ParseParams(p.rest));
      Skip(s, |t| - |p.rest|);
      ParamRest(t);
      done := done + [p.value];
    }
    assert done + [] == done;
    ps := Some(done);
  }

  lemma AfterNothing<X>(r: Parsed<seq<X>>)
    ensures After([], r) == r
  {
    if r.Yes? {
      assert [] + r.value == r.value;
    }
  }

  lemma AfterAfter<X>(a: seq<X>, b: seq<X>, r: Parsed<seq<X>>)
    ensures After(a, After(b, r)) == After(a + b, r)
  {
    if r.Yes? {
      assert a + (b + r.value) == a + b + r.value;
    }
  }

  lemma ParamRest(t: seq<Token>)
    requires ParseParam(t).Yes?
    ensures ParseParam(t).rest == t[|t| - |ParseParam(t).rest|..]
  {
  }

  method ReadLet(s: Stream) returns (l: Option<Let>)
    requires s.pos <= |s.toks|
    modifies s
    ensures Matches(ParseLet(old(s.toks[s.pos..])), l, s.toks, s.pos)
    ensures l.Some? ==> s.pos > old(s.pos)
  {
    ghost var t := s.toks[s.pos..];
    if !(s.pos + 3 < |s.toks| && s.toks[s.pos] == Ident("let") && Named(s.toks, s.pos + 1) && s.toks[s.pos + 2] == Sym("=")) {
      return None;
    }
    var name := s.toks[s.pos + 1].text;
    Skip(s, 3);
    var e := s.Expr();
    if e.None? || s.pos == |s.toks| || s.toks[s.pos] != Ident("in") {
      return None;
    }
    Skip(s, 1);
    l := Some(Let(name, e.value));
  }

  method ReadLets(s: Stream) returns (ls: Option<seq<Let>>)
    requires s.pos <= |s.toks|
    modifies s
    ensures Matches(ParseLets(old(s.toks[s.pos..])), ls, s.toks, s.pos)
  {
    var done: seq<Let> := [];
    AfterNothing(ParseLets(s.toks[s.pos..]));
    while s.pos < |s.toks| && s.toks[s.pos] == Ident("let")
      invariant s.pos <= |s.toks|
      invariant ParseLets(old(s.toks[s.pos..])) == After(done, ParseLets(s.toks[s.pos..]))
      decreases |s.toks| - s.pos
    {
      ghost var t := s.toks[s.pos..];
      var l := ReadLet(s);
      if l.None? {
        return None;
      }
      AfterAfter(done, [l.value], ParseLets(s.toks[s.pos..]));
      done := done + [l.value];
    }
    assert done + [] == done;
    ls := Some(done);
  }

  lemma StoreRest(t: seq<Token>)
    requires ParseStore(t).Yes?
    ensures ParseStore(t).rest == t[|t| - |ParseStore(t).rest|..]
  {
  }

  method ReadStores(s: Stream) returns (ss: Option<seq<Store>>)
    requires s.pos <= |s.toks|
    modifies s
    ensures Matches(ParseStores(old(s.toks[s.pos..])), ss, s.toks, s.pos)
  {
    var done: seq<Store> := [];
    AfterNothing(ParseStores(s.toks[s.pos..]));
    while true
      invariant s.pos <= |s.toks|
      invariant ParseStores(old(s.toks[s.pos..])) == After(done, ParseStores(s.toks[s.pos..]))
      decreases |s.toks| - s.pos
    {
      var t := s.toks[s.pos..];
      var p := ParseStore(t);
      if p.No? {
        return None;
      }
      StoreRest(t);
      Skip(s, |t| - |p.rest|);
      if s.pos == |s.toks| || s.toks[s.pos] != Sym(";") {
        return Some(done + [p.value]);
      }
      Skip(s, 1);
      AfterAfter(done, [p.value], ParseStores(s.toks[s.pos..]));
      done := done + [p.value];
    }
  }

  method ReadHead(s: Stream) returns (ps: Option<seq<Param>>)
    requires s.pos <= |s.toks|
    modifies s
    ensures Matches(ParseHead(old(s.toks[s.pos..])), ps, s.toks, s.pos)
  {
    if !(s.pos + 2 < |s.toks| && s.toks[s.pos] == Ident("let") && s.toks[s.pos + 1] == Attr && Named(s.toks, s.pos + 2)) {
      return None;
    }
    Skip(s, 3);
    ps := ReadParams(s);
    if ps.None? {
      return;
    }
    if s.pos + 2 < |s.toks| && s.toks[s.pos] == Sym(":") && s.toks[s.pos + 1] == Ident("unit") && s.toks[s.pos + 2] == Sym("=")
       && |ps.value| > 0 && ps.value[0] == Param("out", IntArray) && Distinct(ps.value) {
      Skip(s, 3);
    } else {
      ps := None;
    }
  }

  method ReadBody(s: Stream, name: string, params: seq<Param>, wide: bool) returns (f: Option<NamedFunction>)
    requires s.pos <= |s.toks|
    modifies s
    ensures Matches(ParseBody(name, params, wide, old(s.toks[s.pos..])), f, s.toks, s.pos)
  {
    var lets := ReadLets(s);
    if lets.None? {
      return None;
    }
    var stores := ReadStores(s);
    if stores.None? || !Ends(s.toks[s.pos..]) {
      return None;
    }
    f := Some(NamedFunction(name, Function(params, wide, lets.value, stores.value)));
  }

  /** The reader, statement by statement, computes the grammar. */
  method ReadFunction(s: Stream) returns (f: Option<NamedFunction>)
    requires s.pos <= |s.toks|
    modifies s
    ensures Matches(ParseFunction(old(s.toks[s.pos..])), f, s.toks, s.pos)
  {
    var t := s.toks[s.pos..];
    var ps := ReadHead(s);
    if ps.None? {
      return None;
    }
    var rest := s.toks[s.pos..];
    if OpensWide(rest) {
      if |rest| > 3 && rest[2] == Upper("Wide") && rest[3] == Ident("in") {
        Skip(s, 4);
        f := ReadBody(s, t[2].text, ps.value, true);
      } else {
        f := None;
      }
    } else {
      f := ReadBody(s, t[2].text, ps.value, false);
    }
  }

  // ---------------------------------------------------------------- what the generator emits

  /** An operand of a kernel: an array with a name for every limb, or a small int. */
  datatype Operand = Limbs(name: string, limbs: seq<string>) | Small(name: string)

  /** `Kernel`, as far as its text depends on it. */
  datatype Source = Source(name: string, operands: seq<Operand>, wide: bool, stmts: seq<A.Stmt>, outputs: seq<string>)

  datatype Load = Load(id: string, param: string, index: nat)

  predicate Seen(loads: seq<Load>, v: string) {
    exists i :: 0 <= i < |loads| && loads[i].id == v
  }

  /** The first n limbs of one array, each name once. */
  function LimbLoads(loads: seq<Load>, p: string, limbs: seq<string>, n: nat): seq<Load>
    requires n <= |limbs|
  {
    if n == 0 then loads
    else
      var r := LimbLoads(loads, p, limbs, n - 1);
      if Seen(r, limbs[n - 1]) then r else r + [Load(limbs[n - 1], p, n - 1)]
  }

  function Loads(operands: seq<Operand>): seq<Load> {
    if |operands| == 0 then []
    else
      var n := |operands| - 1;
      var r := Loads(operands[..n]);
      match operands[n]
      case Small(_) => r
      case Limbs(p, limbs) => LimbLoads(r, p, limbs, |limbs|)
  }

  /** A binding: its name, the text of its right-hand side, and the tree meant by it. */
  datatype Binding = Binding(id: string, text: seq<Token>, tree: Raw)

  function LoadBinding(l: Load, wide: bool): Binding {
    var text, tree := [Qual("Array.unsafe_get"), Ident(l.param), Int(l.index, false)], RLoad(l.param, l.index);
    if wide then Binding(l.id, [Ident("of_int"), Sym("(")] + text + [Sym(")")], ROfInt(tree)) else Binding(l.id, text, tree)
  }

  function StmtBinding(s: A.Stmt, wide: bool): Binding {
    Binding(s.name, Print(s.rhs, wide, 0), ToRaw(s.rhs, wide))
  }

  function LoadBindings(loads: seq<Load>, wide: bool): (bs: seq<Binding>)
    ensures |bs| == |loads|
  {
    seq(|loads|, i requires 0 <= i < |loads| => LoadBinding(loads[i], wide))
  }

  function StmtBindings(stmts: seq<A.Stmt>, wide: bool): (bs: seq<Binding>)
    ensures |bs| == |stmts|
  {
    seq(|stmts|, i requires 0 <= i < |stmts| => StmtBinding(stmts[i], wide))
  }

  function Bindings(k: Source): seq<Binding> {
    LoadBindings(Loads(k.operands), k.wide) + StmtBindings(k.stmts, k.wide)
  }

  function LetsOf(bs: seq<Binding>): (ls: seq<Let>)
    ensures |ls| == |bs|
  {
    seq(|bs|, i requires 0 <= i < |bs| => Let(bs[i].id, bs[i].tree))
  }

  function ParamOf(o: Operand): Param {
    Param(o.name, if o.Limbs? then IntArray else Scalar)
  }

  function Params(k: Source): seq<Param> {
    [Param("out", IntArray)] + seq(|k.operands|, i requires 0 <= i < |k.operands| => ParamOf(k.operands[i]))
  }

  function StoreOf(k: Source, i: nat): Store
    requires i < |k.outputs|
  {
    Store("out", i, if k.wide then RToInt(RName(k.outputs[i])) else RName(k.outputs[i]))
  }

  function StoresFrom(k: Source, i: nat): (ss: seq<Store>)
    requires i <= |k.outputs|
    ensures |ss| == |k.outputs| - i && forall n :: 0 <= n < |ss| ==> ss[n] == StoreOf(k, i + n)
    decreases |k.outputs| - i
  {
    if i == |k.outputs| then [] else [StoreOf(k, i)] + StoresFrom(k, i + 1)
  }

  /** The function the text stands for. */
  function FunctionOf(k: Source): Function {
    Function(Params(k), k.wide, LetsOf(Bindings(k)), StoresFrom(k, 0))
  }

  function ParamText(p: Param): seq<Token> {
    [Sym("("), Ident(p.name), Sym(":"), Ident("int")] + (if p.kind == IntArray then [Ident("array")] else []) + [Sym(")")]
  }

  function ParamsText(ps: seq<Param>): seq<Token> {
    if |ps| == 0 then [] else ParamText(ps[0]) + ParamsText(ps[1..])
  }

  function BindingText(b: Binding): seq<Token> {
    [Ident("let"), Ident(b.id), Sym("=")] + b.text + [Ident("in")]
  }

  function BindingsText(bs: seq<Binding>): seq<Token> {
    if |bs| == 0 then [] else BindingText(bs[0]) + BindingsText(bs[1..])
  }

  function StoreText(k: Source, i: nat): seq<Token>
    requires i < |k.outputs|
  {
    [Qual("Array.unsafe_set"), Ident("out"), Int(i, false)]
    + if k.wide then [Sym("("), Ident("to_int"), Ident(k.outputs[i]), Sym(")")] else [Ident(k.outputs[i])]
  }

  function StoresText(k: Source, i: nat): seq<Token>
    requires i < |k.outputs|
    decreases |k.outputs| - i
  {
    StoreText(k, i) + if i + 1 < |k.outputs| then [Sym(";")] + StoresText(k, i + 1) else []
  }

  function HeadText(k: Source): seq<Token> {
    [Ident("let"), Attr, Ident(k.name)] + ParamsText(Params(k)) + [Sym(":"), Ident("unit"), Sym("=")]
  }

  function OpenText(wide: bool): seq<Token> {
    if wide then [Ident("let"), Ident("open"), Upper("Wide"), Ident("in")] else []
  }

  /** `emit_function`, as tokens. */
  function FunctionText(k: Source): seq<Token>
    requires |k.outputs| > 0
  {
    HeadText(k) + OpenText(k.wide) + BindingsText(Bindings(k)) + StoresText(k, 0)
  }

  // ---------------------------------------------------------------- reading back what was emitted

  predicate Legal(s: string) {
    !Keyword(s)
  }

  predicate LegalLoads(loads: seq<Load>) {
    forall i :: 0 <= i < |loads| ==> Legal(loads[i].id) && Legal(loads[i].param)
  }

  predicate ReadableStmt(s: A.Stmt, wide: bool) {
    Legal(s.name) && T.Spelled(s.rhs, wide) && T.Bracketed(s.rhs)
  }

  predicate ReadableStmts(stmts: seq<A.Stmt>, wide: bool) {
    forall i :: 0 <= i < |stmts| ==> ReadableStmt(stmts[i], wide)
  }

  /** Legal and distinct names, and right-hand sides the reader groups as meant. */
  predicate Emittable(k: Source) {
    && Legal(k.name) && |k.outputs| == LIMBS && Distinct(Params(k))
    && (forall i :: 0 <= i < |k.operands| ==> Legal(k.operands[i].name))
    && LegalLoads(Loads(k.operands)) && ReadableStmts(k.stmts, k.wide)
    && forall i :: 0 <= i < LIMBS ==> Legal(k.outputs[i])
  }

  lemma OpenIsKeyword()
    ensures Keyword("open")
  {
  }

  lemma OutIsLegal()
    ensures Legal("out")
  {
    forall w | w in Keywords('o') ensures w != "out" {
      assert |w| != 3;
    }
  }

  lemma ParamRead(p: Param, rest: seq<Token>)
    requires Legal(p.name)
    ensures ParseParam(ParamText(p) + rest) == Yes(p, rest)
  {
    var t := ParamText(p) + rest;
    if p.kind == IntArray {
      assert t[6..] == rest;
    } else {
      assert t[5..] == rest;
    }
  }

  lemma {:induction false} ParamsRead(ps: seq<Param>, rest: seq<Token>)
    requires (forall i :: 0 <= i < |ps| ==> Legal(ps[i].name)) && |rest| > 0 && rest[0] != Sym("(")
    ensures ParseParams(ParamsText(ps) + rest) == Yes(ps, rest)
  {
    if |ps| == 0 {
      assert ParamsText(ps) + rest == rest;
    } else {
      var more := ParamsText(ps[1..]) + rest;
      assert ParamsText(ps) + rest == ParamText(ps[0]) + more;
      ParamRead(ps[0], more);
      ParamsRead(ps[1..], rest);
      assert [ps[0]] + ps[1..] == ps;
    }
  }

  predicate BindingAt(b: Binding, rest: seq<Token>) {
    ParseExpr(b.text + rest) == Done(b.tree, rest)
  }

  ghost predicate GoodBinding(b: Binding) {
    Legal(b.id) && forall rest: seq<Token> :: |rest| > 0 && rest[0] == Ident("in") ==> BindingAt(b, rest)
  }

  lemma {:induction false} LetsRead(bs: seq<Binding>, rest: seq<Token>)
    requires (forall i :: 0 <= i < |bs| ==> GoodBinding(bs[i])) && |rest| > 0 && rest[0] != Ident("let")
    ensures ParseLets(BindingsText(bs) + rest) == Yes(LetsOf(bs), rest)
  {
    if |bs| == 0 {
      assert BindingsText(bs) + rest == rest;
    } else {
      var more := BindingsText(bs[1..]) + rest;
      LetRead(bs[0], more);
      LetsRead(bs[1..], rest);
      LetsCons(bs, rest);
    }
  }

  lemma LetsCons(bs: seq<Binding>, rest: seq<Token>)
    requires |bs| > 0
    ensures BindingsText(bs) + rest == BindingText(bs[0]) + (BindingsText(bs[1..]) + rest)
    ensures (BindingsText(bs) + rest)[0] == Ident("let") && (BindingsText(bs) + rest)[1] == Ident(bs[0].id)
    ensures LetsOf(bs) == [Let(bs[0].id, bs[0].tree)] + LetsOf(bs[1..])
  {
    T.Associate(BindingText(bs[0]), BindingsText(bs[1..]), rest);
    FirstTokens(bs[0], BindingsText(bs[1..]) + rest);
    LetsOfCons(bs);
  }

  lemma FirstTokens(b: Binding, more: seq<Token>)
    ensures (BindingText(b) + more)[0] == Ident("let") && (BindingText(b) + more)[1] == Ident(b.id)
  {
  }

  lemma LetsOfCons(bs: seq<Binding>)
    requires |bs| > 0
    ensures LetsOf(bs) == [Let(bs[0].id, bs[0].tree)] + LetsOf(bs[1..])
  {
  }

  lemma LetRead(b: Binding, more: seq<Token>)
    requires GoodBinding(b)
    ensures ParseLet(BindingText(b) + more) == Yes(Let(b.id, b.tree), more)
  {
    var t, tail := BindingText(b) + more, [Ident("in")] + more;
    assert t[3..] == b.text + tail;
    assert BindingAt(b, tail);
    assert tail[1..] == more;
  }

  lemma LoadGood(l: Load, wide: bool)
    requires Legal(l.id) && Legal(l.param)
    ensures GoodBinding(LoadBinding(l, wide))
  {
    forall rest: seq<Token> | |rest| > 0 && rest[0] == Ident("in") ensures BindingAt(LoadBinding(l, wide), rest) {
      if wide {
        WideLoadRead(l, rest);
      } else {
        LoadRead(l, rest);
      }
    }
  }

  /** An application with nothing after it that continues an expression. */
  lemma AppIsExpr(t: seq<Token>, e: Raw, rest: seq<Token>)
    requires ParseApp(t) == Done(e, rest) && T.Stops(rest)
    ensures ParseExpr(t) == Done(e, rest)
  {
    assert ParseShift(t) == Done(e, rest);
    assert ParseProd(t) == Done(e, rest);
  }

  lemma LoadRead(l: Load, rest: seq<Token>)
    requires Legal(l.param) && T.Stops(rest)
    ensures ParseExpr([Qual("Array.unsafe_get"), Ident(l.param), Int(l.index, false)] + rest) == Done(RLoad(l.param, l.index), rest)
  {
    var t := [Qual("Array.unsafe_get"), Ident(l.param), Int(l.index, false)] + rest;
    assert t[3..] == rest;
    AppIsExpr(t, RLoad(l.param, l.index), rest);
  }

  lemma WideLoadRead(l: Load, rest: seq<Token>)
    requires Legal(l.param) && T.Stops(rest)
    ensures ParseExpr(LoadBinding(l, true).text + rest) == Done(ROfInt(RLoad(l.param, l.index)), rest)
  {
    var close := [Sym(")")] + rest;
    var inner := [Qual("Array.unsafe_get"), Ident(l.param), Int(l.index, false)] + close;
    var t, paren := LoadBinding(l, true).text + rest, [Sym("(")] + inner;
    LoadRead(l, close);
    assert t[1..] == paren;
    assert paren[1..] == inner && close[1..] == rest;
    assert inner[0] != Sym("-");
    assert ParseAtom(paren) == Done(RLoad(l.param, l.index), rest);
    assert t[0] == Ident("of_int");
    AppIsExpr(t, ROfInt(RLoad(l.param, l.index)), rest);
  }

  lemma StmtGood(s: A.Stmt, wide: bool)
    requires ReadableStmt(s, wide)
    ensures GoodBinding(StmtBinding(s, wide))
  {
    var b := StmtBinding(s, wide);
    forall rest: seq<Token> | |rest| > 0 && rest[0] == Ident("in") ensures BindingAt(b, rest) {
      T.RoundTripIff(s.rhs, wide, rest);
    }
  }

  lemma LoadsGood(loads: seq<Load>, wide: bool)
    requires LegalLoads(loads)
    ensures forall i :: 0 <= i < |loads| ==> GoodBinding(LoadBindings(loads, wide)[i])
  {
    forall i | 0 <= i < |loads| ensures GoodBinding(LoadBindings(loads, wide)[i]) {
      LoadGood(loads[i], wide);
    }
  }

  lemma StmtsGood(stmts: seq<A.Stmt>, wide: bool)
    requires ReadableStmts(stmts, wide)
    ensures forall i :: 0 <= i < |stmts| ==> GoodBinding(StmtBindings(stmts, wide)[i])
  {
    forall i | 0 <= i < |stmts| ensures GoodBinding(StmtBindings(stmts, wide)[i]) {
      StmtGood(stmts[i], wide);
    }
  }

  lemma BothGood(bs: seq<Binding>, cs: seq<Binding>)
    requires (forall i :: 0 <= i < |bs| ==> GoodBinding(bs[i])) && forall i :: 0 <= i < |cs| ==> GoodBinding(cs[i])
    ensures forall i :: 0 <= i < |bs + cs| ==> GoodBinding((bs + cs)[i])
  {
    forall i | 0 <= i < |bs + cs| ensures GoodBinding((bs + cs)[i]) {
      assert (bs + cs)[i] == if i < |bs| then bs[i] else cs[i - |bs|];
    }
  }

  lemma BindingsGood(k: Source)
    requires Emittable(k)
    ensures forall i :: 0 <= i < |Bindings(k)| ==> GoodBinding(Bindings(k)[i])
  {
    LoadsGood(Loads(k.operands), k.wide);
    StmtsGood(k.stmts, k.wide);
    BothGood(LoadBindings(Loads(k.operands), k.wide), StmtBindings(k.stmts, k.wide));
  }

  lemma StoreRead(k: Source, i: nat, rest: seq<Token>)
    requires i < |k.outputs| && Legal(k.outputs[i])
    ensures ParseStore(StoreText(k, i) + rest) == Yes(StoreOf(k, i), rest)
  {
    var t := StoreText(k, i) + rest;
    OutIsLegal();
    if k.wide {
      assert t[7..] == rest;
    } else {
      assert t[4..] == rest;
    }
  }

  lemma {:induction false} StoresRead(k: Source, i: nat, rest: seq<Token>)
    requires i < |k.outputs| && (forall n :: 0 <= n < |k.outputs| ==> Legal(k.outputs[n])) && |rest| > 0 && rest[0] != Sym(";")
    ensures ParseStores(StoresText(k, i) + rest) == Yes(StoresFrom(k, i), rest)
    decreases |k.outputs| - i
  {
    if i + 1 < |k.outputs| {
      var more := StoresText(k, i + 1) + rest;
      assert StoresText(k, i) + rest == StoreText(k, i) + ([Sym(";")] + more);
      StoreRead(k, i, [Sym(";")] + more);
      assert ([Sym(";")] + more)[1..] == more;
      StoresRead(k, i + 1, rest);
    } else {
      assert StoresText(k, i) + rest == StoreText(k, i) + rest;
      StoreRead(k, i, rest);
      assert StoresFrom(k, i) == [StoreOf(k, i)];
    }
  }

  lemma HeadRead(k: Source, rest: seq<Token>)
    requires Emittable(k)
    ensures ParseHead(HeadText(k) + rest) == Yes(Params(k), rest)
  {
    var ps, close := Params(k), [Sym(":"), Ident("unit"), Sym("=")] + rest;
    var t := HeadText(k) + rest;
    assert t[3..] == ParamsText(ps) + close;
    forall i | 0 <= i < |ps| ensures Legal(ps[i].name) {
      OutIsLegal();
      if i > 0 {
        assert ps[i] == ParamOf(k.operands[i - 1]);
      }
    }
    ParamsRead(ps, close);
    assert close[3..] == rest;
  }

  lemma BodyRead(k: Source, rest: seq<Token>)
    requires Emittable(k) && Ends(rest)
    ensures ParseBody(k.name, Params(k), k.wide, BindingsText(Bindings(k)) + (StoresText(k, 0) + rest))
         == Yes(NamedFunction(k.name, FunctionOf(k)), rest)
  {
    BindingsGood(k);
    assert (StoresText(k, 0) + rest)[0] == Qual("Array.unsafe_set");
    LetsRead(Bindings(k), StoresText(k, 0) + rest);
    StoresRead(k, 0, rest);
  }

  lemma OpenedRead(k: Source, t: seq<Token>, rest: seq<Token>)
    requires Emittable(k) && Ends(rest) && |t| > 2 && t[2] == Ident(k.name)
    requires ParseHead(t) == Yes(Params(k), OpenText(k.wide) + (BindingsText(Bindings(k)) + (StoresText(k, 0) + rest)))
    ensures ParseFunction(t) == Yes(NamedFunction(k.name, FunctionOf(k)), rest)
  {
    var body := BindingsText(Bindings(k)) + (StoresText(k, 0) + rest);
    BodyRead(k, rest);
    if k.wide {
      assert (OpenText(k.wide) + body)[4..] == body;
    } else {
      assert OpenText(k.wide) + body == body;
      NotOpen(k, rest);
    }
  }

  lemma TextParts(a: seq<Token>, b: seq<Token>, c: seq<Token>, d: seq<Token>, rest: seq<Token>)
    ensures a + b + c + d + rest == a + (b + (c + (d + rest)))
  {
    T.Associate(a + b + c, d, rest);
    T.Associate(a + b, c, d + rest);
    T.Associate(a, b, c + (d + rest));
  }

  /** The emitted text, up to the next function, is read as the function meant. */
  lemma FunctionRoundTrip(k: Source, rest: seq<Token>)
    requires Emittable(k) && Ends(rest)
    ensures ParseFunction(FunctionText(k) + rest) == Yes(NamedFunction(k.name, FunctionOf(k)), rest)
  {
    var body := BindingsText(Bindings(k)) + (StoresText(k, 0) + rest);
    var t := FunctionText(k) + rest;
    TextParts(HeadText(k), OpenText(k.wide), BindingsText(Bindings(k)), StoresText(k, 0), rest);
    assert t[2] == Ident(k.name);
    HeadRead(k, OpenText(k.wide) + body);
    OpenedRead(k, t, rest);
  }

  lemma NotOpen(k: Source, rest: seq<Token>)
    requires Emittable(k)
    ensures !OpensWide(BindingsText(Bindings(k)) + (StoresText(k, 0) + rest))
  {
    BindingsGood(k);
    var bs := Bindings(k);
    OpenIsKeyword();
    if |bs| > 0 {
      LetsCons(bs, StoresText(k, 0) + rest);
    } else {
      assert (BindingsText(bs) + (StoresText(k, 0) + rest))[0] == Qual("Array.unsafe_set");
    }
  }

  // ---------------------------------------------------------------- the generator's loops

  /** `emit_function`: the loads by a loop over operands and limbs with a set of names seen. */
  method EmitLoads(k: Source) returns (text: seq<Token>, ghost loads: seq<Load>)
    ensures loads == Loads(k.operands) && text == BindingsText(LoadBindings(loads, k.wide))
  {
    text, loads := [], [];
    var seen: set<string> := {};
    for n := 0 to |k.operands|
      invariant loads == Loads(k.operands[..n]) && text == BindingsText(LoadBindings(loads, k.wide))
      invariant forall v :: v in seen <==> Seen(loads, v)
    {
      assert k.operands[..n + 1][..n] == k.operands[..n];
      if k.operands[n].Limbs? {
        text, seen, loads := EmitArray(k.operands[n].name, k.operands[n].limbs, k.wide, text, seen, loads);
      }
    }
    assert k.operands[..|k.operands|] == k.operands;
  }

  method EmitArray(p: string, limbs: seq<string>, wide: bool, text0: seq<Token>, seen0: set<string>, ghost loads0: seq<Load>)
    returns (text: seq<Token>, seen: set<string>, ghost loads: seq<Load>)
    requires text0 == BindingsText(LoadBindings(loads0, wide)) && forall v :: v in seen0 <==> Seen(loads0, v)
    ensures loads == LimbLoads(loads0, p, limbs, |limbs|) && text == BindingsText(LoadBindings(loads, wide))
    ensures forall v :: v in seen <==> Seen(loads, v)
  {
    text, seen, loads := text0, seen0, loads0;
    for i := 0 to |limbs|
      invariant loads == LimbLoads(loads0, p, limbs, i) && text == BindingsText(LoadBindings(loads, wide))
      invariant forall v :: v in seen <==> Seen(loads, v)
    {
      var v := limbs[i];
      if v !in seen {
        var l := Load(v, p, i);
        BindingsSnoc(LoadBindings(loads, wide), LoadBinding(l, wide));
        assert LoadBindings(loads + [l], wide) == LoadBindings(loads, wide) + [LoadBinding(l, wide)];
        SeenSnoc(loads, l);
        seen := seen + {v};
        text := text + BindingText(LoadBinding(l, wide));
        loads := loads + [l];
      }
    }
  }

  lemma SeenSnoc(loads: seq<Load>, l: Load)
    ensures forall v :: Seen(loads + [l], v) <==> Seen(loads, v) || v == l.id
  {
    forall v ensures Seen(loads + [l], v) <==> Seen(loads, v) || v == l.id {
      if Seen(loads, v) {
        var i :| 0 <= i < |loads| && loads[i].id == v;
        assert (loads + [l])[i].id == v;
      }
      if v == l.id {
        assert (loads + [l])[|loads|].id == v;
      }
    }
  }

  lemma {:induction false} BindingsSnoc(bs: seq<Binding>, b: Binding)
    ensures BindingsText(bs + [b]) == BindingsText(bs) + BindingText(b)
  {
    if |bs| == 0 {
      assert bs + [b] == [b] && [b][1..] == [];
    } else {
      assert (bs + [b])[1..] == bs[1..] + [b];
      BindingsSnoc(bs[1..], b);
    }
  }

  lemma {:induction false} BindingsAppend(bs: seq<Binding>, cs: seq<Binding>)
    ensures BindingsText(bs + cs) == BindingsText(bs) + BindingsText(cs)
  {
    if |bs| == 0 {
      assert bs + cs == cs;
    } else {
      assert (bs + cs)[1..] == bs[1..] + cs;
      BindingsAppend(bs[1..], cs);
    }
  }

  /** Every part in order: signature, loads, statements, stores. */
  method EmitFunction(k: Source) returns (text: seq<Token>)
    requires |k.outputs| > 0
    ensures text == FunctionText(k)
  {
    var loadText;
    ghost var loads;
    loadText, loads := EmitLoads(k);
    var stmtText := EmitStmts(k);
    BindingsAppend(LoadBindings(loads, k.wide), StmtBindings(k.stmts, k.wide));
    var storeText := EmitStores(k);
    text := HeadText(k) + OpenText(k.wide) + (loadText + stmtText) + storeText;
  }

  method EmitStmts(k: Source) returns (text: seq<Token>)
    ensures text == BindingsText(StmtBindings(k.stmts, k.wide))
  {
    text := [];
    for i := 0 to |k.stmts|
      invariant text == BindingsText(StmtBindings(k.stmts[..i], k.wide))
    {
      var b := StmtBinding(k.stmts[i], k.wide);
      BindingsSnoc(StmtBindings(k.stmts[..i], k.wide), b);
      assert StmtBindings(k.stmts[..i + 1], k.wide) == StmtBindings(k.stmts[..i], k.wide) + [b];
      text := text + BindingText(b);
    }
    assert k.stmts[..|k.stmts|] == k.stmts;
  }

  method EmitStores(k: Source) returns (text: seq<Token>)
    requires |k.outputs| > 0
    ensures text == StoresText(k, 0)
  {
    text := [];
    for i := 0 to |k.outputs|
      invariant if i < |k.outputs| then StoresText(k, 0) == text + StoresText(k, i) else StoresText(k, 0) == text
    {
      text := text + StoreText(k, i) + if i + 1 < |k.outputs| then [Sym(";")] else [];
    }
  }

  // ---------------------------------------------------------------- from program to indexed form

  function LoadTotal(k: Source): nat {
    |Loads(k.operands)|
  }

  /** The scope the statements start from: loaded limbs and int parameters. */
  function Inputs(k: Source, arrays: Arrays, scalars: Env): Env {
    Scope(Exact(), FunctionOf(k), arrays, scalars, LoadTotal(k))
  }

  lemma NotALoad(e: Expr, wide: bool)
    ensures !ToRaw(e, wide).RLoad? && !ToRaw(e, wide).ROfInt?
  {
    match e
    case Sum(terms) =>
      if |terms| == 1 {
        NotALoad(terms[0], wide);
      }
    case _ =>
  }

  /** The scope of the read function is the run of the generator's program. */
  lemma {:induction false} ScopeIsRun(k: Source, arrays: Arrays, scalars: Env, i: nat)
    requires i <= |k.stmts| && A.Scoped(k.stmts, Inputs(k, arrays, scalars).Keys, i)
    ensures Scope(Exact(), FunctionOf(k), arrays, scalars, LoadTotal(k) + i) == A.Run(k.stmts, Inputs(k, arrays, scalars), i)
  {
    if i > 0 {
      ScopeIsRun(k, arrays, scalars, i - 1);
      var env, s, l := A.Run(k.stmts, Inputs(k, arrays, scalars), i - 1), k.stmts[i - 1], FunctionOf(k).lets[LoadTotal(k) + i - 1];
      assert l == Let(s.name, ToRaw(s.rhs, k.wide));
      NotALoad(s.rhs, k.wide);
      ReadMeaning(s.rhs, k.wide, env);
    }
  }

  lemma {:induction false} StoredOutputs(k: Source, env: Env, out: seq<int>, n: nat, i: nat)
    requires i < n <= |k.outputs| == |out|
    ensures Stored(FunctionOf(k), env, out, n)[i] == if k.outputs[i] in env then env[k.outputs[i]] else 0
    decreases n
  {
    if i < n - 1 {
      StoredOutputs(k, env, out, n - 1, i);
    }
  }

  /** The values of the named outputs. */
  function Results(k: Source, env: Env): (r: seq<int>)
    ensures |r| == |k.outputs|
  {
    seq(|k.outputs|, i requires 0 <= i < |k.outputs| => if k.outputs[i] in env then env[k.outputs[i]] else 0)
  }

  lemma StoredIsResults(k: Source, env: Env, out: seq<int>)
    requires |k.outputs| == |out|
    ensures Stored(FunctionOf(k), env, out, |k.outputs|) == Results(k, env)
  {
    forall i | 0 <= i < |out| ensures Stored(FunctionOf(k), env, out, |k.outputs|)[i] == Results(k, env)[i] {
      StoredOutputs(k, env, out, |k.outputs|, i);
    }
  }

  lemma Sizes(k: Source)
    ensures |FunctionOf(k).lets| == LoadTotal(k) + |k.stmts| && |FunctionOf(k).stores| == |k.outputs|
  {
  }

  /** What the read function leaves in `out` is what the program gives its outputs. */
  lemma ReadFunctionMeaning(k: Source, arrays: Arrays, scalars: Env, out: seq<int>, n: nat)
    requires |k.outputs| == |out| && n == |k.stmts| && A.Scoped(k.stmts, Inputs(k, arrays, scalars).Keys, n)
    ensures Stored(FunctionOf(k), Scope(Exact(), FunctionOf(k), arrays, scalars, LoadTotal(k) + n), out, |k.outputs|)
         == Results(k, A.Run(k.stmts, Inputs(k, arrays, scalars), n))
  {
    ScopeIsRun(k, arrays, scalars, n);
    StoredIsResults(k, A.Run(k.stmts, Inputs(k, arrays, scalars), n), out);
  }

  method EmitAndRead(k: Source) returns (f: Option<NamedFunction>)
    requires Emittable(k)
    ensures f == Some(NamedFunction(k.name, FunctionOf(k)))
  {
    var text := EmitFunction(k);
    var s := new Stream(text + [Eof]);
    FunctionRoundTrip(k, [Eof]);
    assert s.toks[0..] == text + [Eof];
    f := ReadFunction(s);
  }

  method ResolveEmitted(k: Source, f: Function, ghost arrays: Arrays, ghost scalars: Env) returns (r: Option<Kernel>)
    requires f == FunctionOf(k) && |k.outputs| == LIMBS && A.Scoped(k.stmts, Inputs(k, arrays, scalars).Keys, |k.stmts|)
    requires forall p :: p in f.params && p.kind == Scalar ==> p.name in scalars
    ensures r.Some? <==> MeetsSpec(k.name, f) && Acceptable(f)
    ensures r.Some? ==>
      && WellIndexed(r.value)
      && Outputs(Exact(), r.value, arrays, scalars) == Results(k, A.Run(k.stmts, Inputs(k, arrays, scalars), |k.stmts|))
  {
    ghost var out: seq<int> := seq(LIMBS, _ => 0);
    Sizes(k);
    ReadFunctionMeaning(k, arrays, scalars, out, |k.stmts|);
    r := Resolve(k.name, f, Exact(), arrays, scalars, out);
  }

  /** Emitting a kernel, reading its text and resolving its names: the indexed statements leave in
      the sixteen limbs the values the program gives its outputs. */
  method EmitReadResolve(k: Source, ghost arrays: Arrays, ghost scalars: Env) returns (r: Option<Kernel>)
    requires Emittable(k) && A.Scoped(k.stmts, Inputs(k, arrays, scalars).Keys, |k.stmts|)
    requires forall i :: 0 <= i < |k.operands| && k.operands[i].Small? ==> k.operands[i].name in scalars
    ensures r.Some? <==> MeetsSpec(k.name, FunctionOf(k)) && Acceptable(FunctionOf(k))
    ensures r.Some? ==>
      && WellIndexed(r.value)
      && Outputs(Exact(), r.value, arrays, scalars) == Results(k, A.Run(k.stmts, Inputs(k, arrays, scalars), |k.stmts|))
  {
    var f := EmitAndRead(k);
    ScalarsGiven(k, scalars);
    r := ResolveEmitted(k, f.value.body, arrays, scalars);
  }

  lemma ScalarsGiven(k: Source, scalars: Env)
    requires forall i :: 0 <= i < |k.operands| && k.operands[i].Small? ==> k.operands[i].name in scalars
    ensures forall p :: p in Params(k) && p.kind == Scalar ==> p.name in scalars
  {
    forall p | p in Params(k) && p.kind == Scalar ensures p.name in scalars {
      var i :| 0 <= i < |Params(k)| && Params(k)[i] == p;
      assert i > 0 && p == ParamOf(k.operands[i - 1]);
    }
  }
}
