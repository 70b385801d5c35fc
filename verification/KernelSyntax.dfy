/** The text of a kernel expression, as tokens: the generator's precedence-aware printer and the
    reader's recursive-descent grammar. */
module KernelSyntax {
  import opened Wrappers
  import opened KernelProgram

  datatype Token =
    | Ident(text: string)
    | Int(value: nat, wide: bool)
    | Sym(text: string)
    | Qual(text: string)
    | Upper(text: string)
    | Attr
    | Eof

  datatype Op = Add | Sub | Mul | ShiftRight | ShiftLeft

  datatype Raw =
    | RName(id: string)
    | RInt(value: int, wide: bool)
    | RLoad(param: string, index: nat)
    | ROfInt(e: Raw)
    | RToInt(e: Raw)
    | RBin(op: Op, a: Raw, b: Raw)

  /** OCaml's keywords, by their first letter. */
  function Keywords(first: char): set<string> {
    if first == 'a' then {"and", "as", "assert", "asr"}
    else if first == 'b' then {"begin"}
    else if first == 'c' then {"class", "constraint"}
    else if first == 'd' then {"do", "done", "downto"}
    else if first == 'e' then {"else", "end", "exception", "external"}
    else if first == 'f' then {"false", "for", "fun", "function", "functor"}
    else if first == 'i' then {"if", "in", "include", "inherit", "initializer"}
    else if first == 'l' then {"land", "lazy", "let", "lor", "lsl", "lsr", "lxor"}
    else if first == 'm' then {"match", "method", "mod", "module", "mutable"}
    else if first == 'n' then {"new", "nonrec"}
    else if first == 'o' then {"object", "of", "open", "or"}
    else if first == 'p' then {"private"}
    else if first == 'r' then {"rec"}
    else if first == 's' then {"sig", "struct"}
    else if first == 't' then {"then", "to", "true", "try", "type"}
    else if first == 'v' then {"val", "virtual"}
    else if first == 'w' then {"when", "while", "with"}
    else {}
  }

  predicate Keyword(s: string) {
    |s| > 0 && s in Keywords(s[0])
  }

  predicate ShiftWord(s: string) {
    s == "lsl" || s == "asr" || s == "lsr" || s == "land" || s == "lor" || s == "lxor" || s == "mod"
  }

  /** A name the reader takes for a variable. */
  predicate Variable(s: string) {
    !Keyword(s) && s != "of_int" && s != "to_int"
  }

  /** Literals must stay below the sign bit of their type. */
  function Limit(wide: bool): int {
    if wide then 0x8000_0000_0000_0000 else 0x4000_0000_0000_0000
  }

  // ---------------------------------------------------------------- the printer

  function Parens(nested: bool, text: seq<Token>): seq<Token> {
    if nested then [Sym("(")] + text + [Sym(")")] else text
  }

  /** `Program.ocaml`: ctx is 0 at the top, 1 for the right operand of a sum, 2 for an operand of a
      product or shift. */
  function Print(e: Expr, wide: bool, ctx: nat): seq<Token> {
    match e
    case Name(id) => [Ident(id)]
    case Const(n) => if n >= 0 then [Int(n, wide)] else [Sym("("), Sym("-"), Int(-n, wide), Sym(")")]
    case Plus(a, b) => Parens(ctx > 0, Print(a, wide, 0) + [Sym("+")] + Print(b, wide, 1))
    case Minus(a, b) => Parens(ctx > 0, Print(a, wide, 0) + [Sym("-")] + Print(b, wide, 1))
    case Times(a, b) => Parens(ctx > 1, Print(a, wide, 1) + [Sym("*")] + Print(b, wide, 2))
    case Sum(terms) => Parens(|terms| > 1 && ctx > 0, PrintSum(terms, wide))
    case Asr(a, k) => Parens(ctx > 0, Print(a, wide, 2) + [Ident("asr"), Int(k, false)])
    case Lsl(a, k) => Parens(ctx > 0, Print(a, wide, 2) + [Ident("lsl"), Int(k, false)])
  }

  function PrintSum(terms: seq<Expr>, wide: bool): seq<Token> {
    if |terms| == 0 then []
    else if |terms| == 1 then Print(terms[0], wide, 0)
    else PrintSum(terms[..|terms| - 1], wide) + [Sym("+")] + Print(terms[|terms| - 1], wide, 1)
  }

  /** The tree the reader should see: n-ary sums nest to the left. */
  function ToRaw(e: Expr, wide: bool): Raw {
    match e
    case Name(id) => RName(id)
    case Const(n) => RInt(n, wide)
    case Plus(a, b) => RBin(Add, ToRaw(a, wide), ToRaw(b, wide))
    case Minus(a, b) => RBin(Sub, ToRaw(a, wide), ToRaw(b, wide))
    case Times(a, b) => RBin(Mul, ToRaw(a, wide), ToRaw(b, wide))
    case Sum(terms) => SumToRaw(terms, wide)
    case Asr(a, k) => RBin(ShiftRight, ToRaw(a, wide), RInt(k, false))
    case Lsl(a, k) => RBin(ShiftLeft, ToRaw(a, wide), RInt(k, false))
  }

  function SumToRaw(terms: seq<Expr>, wide: bool): Raw {
    if |terms| == 0 then RInt(0, wide)
    else if |terms| == 1 then ToRaw(terms[0], wide)
    else RBin(Add, SumToRaw(terms[..|terms| - 1], wide), ToRaw(terms[|terms| - 1], wide))
  }

  // ---------------------------------------------------------------- the grammar

  datatype Parse = Fail | Done(tree: Raw, rest: seq<Token>)

  function ParseExpr(t: seq<Token>): (r: Parse)
    ensures r.Done? ==> |r.rest| < |t|
    decreases |t|, 6
  {
    match ParseProd(t)
    case Fail => Fail
    case Done(left, rest) => ExprLoop(left, rest)
  }

  function ExprLoop(left: Raw, t: seq<Token>): (r: Parse)
    ensures r.Done? ==> |r.rest| <= |t|
    decreases |t|, 0
  {
    if |t| > 0 && (t[0] == Sym("+") || t[0] == Sym("-")) then
      match ParseProd(t[1..])
      case Fail => Fail
      case Done(right, rest) => ExprLoop(RBin(if t[0] == Sym("+") then Add else Sub, left, right), rest)
    else Done(left, t)
  }

  function ParseProd(t: seq<Token>): (r: Parse)
    ensures r.Done? ==> |r.rest| < |t|
    decreases |t|, 5
  {
    match ParseShift(t)
    case Fail => Fail
    case Done(left, rest) => ProdLoop(left, rest)
  }

  function ProdLoop(left: Raw, t: seq<Token>): (r: Parse)
    ensures r.Done? ==> |r.rest| <= |t|
    decreases |t|, 0
  {
    if |t| > 0 && t[0] == Sym("*") then
      match ParseShift(t[1..])
      case Fail => Fail
      case Done(right, rest) => ProdLoop(RBin(Mul, left, right), rest)
    else Done(left, t)
  }

  function ParseShift(t: seq<Token>): (r: Parse)
    ensures r.Done? ==> |r.rest| < |t|
    decreases |t|, 4
  {
    match ParseApp(t)
    case Fail => Fail
    case Done(left, rest) =>
      if |rest| > 0 && rest[0].Ident? && ShiftWord(rest[0].text) then
        if rest[0].text != "lsl" && rest[0].text != "asr" then Fail
        else
          match ParseShift(rest[1..])
          case Fail => Fail
          case Done(right, last) => Done(RBin(if rest[0].text == "asr" then ShiftRight else ShiftLeft, left, right), last)
      else Done(left, rest)
  }

  function ParseApp(t: seq<Token>): (r: Parse)
    ensures r.Done? ==> |r.rest| < |t|
    decreases |t|, 3
  {
    if |t| > 0 && t[0] == Qual("Array.unsafe_get") then
      if |t| > 2 && t[1].Ident? && !Keyword(t[1].text) && t[2].Int? && !t[2].wide
      then Done(RLoad(t[1].text, t[2].value), t[3..])
      else Fail
    else if |t| > 0 && t[0] == Ident("of_int") then
      match ParseAtom(t[1..])
      case Fail => Fail
      case Done(e, rest) => Done(ROfInt(e), rest)
    else if |t| > 0 && t[0] == Ident("to_int") then
      match ParseAtom(t[1..])
      case Fail => Fail
      case Done(e, rest) => Done(RToInt(e), rest)
    else ParseAtom(t)
  }

  function ParseAtom(t: seq<Token>): (r: Parse)
    ensures r.Done? ==> |r.rest| < |t|
    decreases |t|, 2
  {
    if |t| == 0 then Fail
    else if t[0].Int? then
      if t[0].value >= Limit(t[0].wide) then Fail else Done(RInt(t[0].value, t[0].wide), t[1..])
    else if t[0].Ident? && Variable(t[0].text) then Done(RName(t[0].text), t[1..])
    else if t[0] == Sym("(") then
      if |t| > 1 && t[1] == Sym("-") then
        if |t| > 3 && t[2].Int? && t[3] == Sym(")") && t[2].value < Limit(t[2].wide)
        then Done(RInt(0 - (t[2].value as int), t[2].wide), t[4..])
        else Fail
      else
        match ParseExpr(t[1..])
        case Fail => Fail
        case Done(e, rest) => if |rest| > 0 && rest[0] == Sym(")") then Done(e, rest[1..]) else Fail
    else Fail
  }

  // ---------------------------------------------------------------- the reader's stream

  /** What a parsing method leaves behind: the tree and the rest of the tokens, or a failure. */
  predicate Left(p: Parse, tree: Option<Raw>, toks: seq<Token>, pos: nat) {
    match p
    case Fail => tree.None?
    case Done(e, rest) => tree == Some(e) && pos <= |toks| && toks[pos..] == rest
  }

  /** `Stream`: the parser as it runs, advancing a position over the tokens. */
  class Stream {
    const toks: seq<Token>
    var pos: nat

    constructor (tokens: seq<Token>)
      ensures toks == tokens && pos == 0
    {
      toks, pos := tokens, 0;
    }

    predicate At(text: string)
      reads this
      requires pos <= |toks|
    {
      pos < |toks| && toks[pos] == Sym(text)
    }

    method Expr() returns (tree: Option<Raw>)
      requires pos <= |toks|
      modifies this
      ensures Left(ParseExpr(old(toks[pos..])), tree, toks, pos)
      decreases |toks| - pos, 6
    {
      tree := Prod();
      if tree.None? {
        return;
      }
      var left := tree.value;
      while pos < |toks| && (toks[pos] == Sym("+") || toks[pos] == Sym("-"))
        invariant pos <= |toks| && ParseExpr(old(toks[pos..])) == ExprLoop(left, toks[pos..])
        decreases |toks| - pos
      {
        var op := if toks[pos] == Sym("+") then Add else Sub;
        assert toks[pos..][1..] == toks[pos + 1..];
        pos := pos + 1;
        var right := Prod();
        if right.None? {
          return None;
        }
        left := RBin(op, left, right.value);
      }
      tree := Some(left);
    }

    method Prod() returns (tree: Option<Raw>)
      requires pos <= |toks|
      modifies this
      ensures Left(ParseProd(old(toks[pos..])), tree, toks, pos)
      decreases |toks| - pos, 5
    {
      tree := Shifts();
      if tree.None? {
        return;
      }
      var left := tree.value;
      while pos < |toks| && toks[pos] == Sym("*")
        invariant pos <= |toks| && ParseProd(old(toks[pos..])) == ProdLoop(left, toks[pos..])
        decreases |toks| - pos
      {
        assert toks[pos..][1..] == toks[pos + 1..];
        pos := pos + 1;
        var right := Shifts();
        if right.None? {
          return None;
        }
        left := RBin(Mul, left, right.value);
      }
      tree := Some(left);
    }

    method Shifts() returns (tree: Option<Raw>)
      requires pos <= |toks|
      modifies this
      ensures Left(ParseShift(old(toks[pos..])), tree, toks, pos)
      decreases |toks| - pos, 4
    {
      tree := App();
      if tree.Some? && pos < |toks| && toks[pos].Ident? && ShiftWord(toks[pos].text) {
        var word := toks[pos].text;
        if word != "lsl" && word != "asr" {
          return None;
        }
        assert toks[pos..][1..] == toks[pos + 1..];
        pos := pos + 1;
        var right := Shifts();
        if right.None? {
          return None;
        }
        tree := Some(RBin(if word == "asr" then ShiftRight else ShiftLeft, tree.value, right.value));
      }
    }

    method App() returns (tree: Option<Raw>)
      requires pos <= |toks|
      modifies this
      ensures Left(ParseApp(old(toks[pos..])), tree, toks, pos)
      decreases |toks| - pos, 3
    {
      ghost var t := toks[pos..];
      if pos < |toks| && toks[pos] == Qual("Array.unsafe_get") {
        if pos + 2 < |toks| && toks[pos + 1].Ident? && !Keyword(toks[pos + 1].text)
           && toks[pos + 2].Int? && !toks[pos + 2].wide {
          tree := Some(RLoad(toks[pos + 1].text, toks[pos + 2].value));
          assert t[3..] == toks[pos + 3..];
          pos := pos + 3;
        } else {
          tree := None;
        }
      } else if pos < |toks| && (toks[pos] == Ident("of_int") || toks[pos] == Ident("to_int")) {
        var widening := toks[pos] == Ident("of_int");
        assert t[1..] == toks[pos + 1..];
        pos := pos + 1;
        tree := Atom();
        if tree.Some? {
          tree := Some(if widening then ROfInt(tree.value) else RToInt(tree.value));
        }
      } else {
        tree := Atom();
      }
    }

    method Atom() returns (tree: Option<Raw>)
      requires pos <= |toks|
      modifies this
      ensures Left(ParseAtom(old(toks[pos..])), tree, toks, pos)
      decreases |toks| - pos, 2
    {
      ghost var t := toks[pos..];
      if pos == |toks| {
        return None;
      }
      var tok := toks[pos];
      assert t[1..] == toks[pos + 1..];
      pos := pos + 1;
      if tok.Int? {
        tree := if tok.value >= Limit(tok.wide) then None else Some(RInt(tok.value, tok.wide));
      } else if tok.Ident? && Variable(tok.text) {
        tree := Some(RName(tok.text));
      } else if tok == Sym("(") {
        if At("-") {
          if pos + 2 < |toks| && toks[pos + 1].Int? && toks[pos + 2] == Sym(")")
             && toks[pos + 1].value < Limit(toks[pos + 1].wide) {
            tree := Some(RInt(0 - (toks[pos + 1].value as int), toks[pos + 1].wide));
            assert t[4..] == toks[pos + 3..];
            pos := pos + 3;
          } else {
            tree := None;
          }
        } else {
          tree := Expr();
          if tree.Some? {
            if At(")") {
              assert toks[pos..][1..] == toks[pos + 1..];
              pos := pos + 1;
            } else {
              tree := None;
            }
          }
        }
      } else {
        tree := None;
      }
    }
  }
}
