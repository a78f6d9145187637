/**
 The recursive-descent parser. `ParseAt(level, ...)` is the grammar, one level a
 method of `Parser`; the methods move the cursor exactly as far.
 */
module Parser {
  import opened Characters
  import opened ExpressionSyntax
  import Lexer

  // Grammar levels, loosest first.
  const TERNARY := 0
  const NULLCOAL := 1
  const OR := 2
  const AND := 3
  const NOT := 4
  const EQUALITY := 5
  const COMPARE := 6
  const ADDITIVE := 7
  const TERM := 8
  const UNARY := 9
  const PRIMARY := 10

  predicate BinaryLevel(level: nat)
  {
    level == NULLCOAL || level == OR || level == AND || (EQUALITY <= level <= TERM)
  }

  /** The operator a token stands for at a binary level. */
  function OperatorAt(level: nat, tok: Token): Option<string>
  {
    if level == NULLCOAL then if tok == NullCoal then Some("??") else None
    else if level == OR then if tok == Or then Some("||") else None
    else if level == AND then if tok == And then Some("&&") else None
    else if level == EQUALITY then
      if tok == Eq then Some("==") else if tok == Neq then Some("!=") else None
    else if level == COMPARE then
      if tok == Lt then Some("<") else if tok == Lte then Some("<=")
      else if tok == Gt then Some(">") else if tok == Gte then Some(">=") else None
    else if level == ADDITIVE then
      if tok == Plus then Some("+") else if tok == Minus then Some("-") else None
    else if level == TERM then
      if tok == Star then Some("*") else if tok == Slash then Some("/")
      else if tok == Percent then Some("%") else None
    else None
  }

  /** A parsed node and the index of the token after it. */
  datatype Parsed<T> = Parsed(node: T, next: nat)

  /** The parser's index stays on a token: it never passes EOF. */
  predicate InRange(toks: seq<Placed>, i: nat)
  {
    Lexer.Terminated(toks) && i < |toks|
  }

  function Expect(toks: seq<Placed>, i: nat, tok: Token): (r: Result<nat>)
    requires InRange(toks, i) && tok != Eof
    ensures r.Ok? ==> r.value == i + 1 < |toks|
  {
    if toks[i].tok == tok then Ok(i + 1) else Fail(Syntax(toks[i].pos))
  }

  function ParseAt(t: CharTable, level: nat, toks: seq<Placed>, i: nat): (r: Result<Parsed<Expr>>)
    requires InRange(toks, i) && level <= PRIMARY
    ensures r.Ok? ==> i < r.value.next < |toks|
    ensures r.Fail? ==> r.error.Syntax?
    decreases |toks| - i, 20 - level
  {
    if level == TERNARY then
      var cond :- ParseAt(t, NULLCOAL, toks, i);
      if toks[cond.next].tok == QMark then
        var yes :- ParseAt(t, TERNARY, toks, cond.next + 1);
        var colon :- Expect(toks, yes.next, Colon);
        var no :- ParseAt(t, TERNARY, toks, colon);
        Ok(Parsed(ETern(cond.node, yes.node, no.node), no.next))
      else Ok(cond)
    else if level == NOT then
      if toks[i].tok == Not then
        var arg :- ParseAt(t, NOT, toks, i + 1);
        Ok(Parsed(EUnary("not", arg.node), arg.next))
      else ParseAt(t, EQUALITY, toks, i)
    else if level == UNARY then
      if toks[i].tok == Minus then
        var arg :- ParseAt(t, UNARY, toks, i + 1);
        Ok(Parsed(EUnary("-", arg.node), arg.next))
      else if toks[i].tok == Plus then ParseAt(t, UNARY, toks, i + 1)
      else ParseAt(t, PRIMARY, toks, i)
    else if level == PRIMARY then ParsePrimary(t, toks, i)
    else
      var left :- ParseAt(t, level + 1, toks, i);
      ParseLoop(t, level, toks, left.next, left.node)
  }

  /** The `while` of a binary level: fold operands into `left` as long as an
      operator of this level follows. */
  function ParseLoop(t: CharTable, level: nat, toks: seq<Placed>, i: nat, left: Expr): (r: Result<Parsed<Expr>>)
    requires InRange(toks, i) && level < PRIMARY
    ensures r.Ok? ==> i <= r.value.next < |toks|
    ensures r.Fail? ==> r.error.Syntax?
    decreases |toks| - i, 20 - level
  {
    var op := OperatorAt(level, toks[i].tok);
    if op.Some? then
      var right :- ParseAt(t, level + 1, toks, i + 1);
      ParseLoop(t, level, toks, right.next, EBin(op.value, left, right.node))
    else Ok(Parsed(left, i))
  }

  function ParsePrimary(t: CharTable, toks: seq<Placed>, i: nat): (r: Result<Parsed<Expr>>)
    requires InRange(toks, i)
    ensures r.Ok? ==> i < r.value.next < |toks|
    ensures r.Fail? ==> r.error.Syntax?
    decreases |toks| - i, 1
  {
    match toks[i].tok
    case Num(number) => Ok(Parsed(ENum(number), i + 1))
    case Str(text) => Ok(Parsed(EStr(text), i + 1))
    case BoolLit(b) => Ok(Parsed(EBool(b), i + 1))
    case NullLit => Ok(Parsed(ENull, i + 1))
    case Bind(name) => Ok(Parsed(EBind(name), i + 1))
    case LParen =>
      var e :- ParseAt(t, TERNARY, toks, i + 1);
      var close :- Expect(toks, e.next, RParen);
      Ok(Parsed(e.node, close))
    case Ident(name) => ParseCall(t, toks, i, name)
    case _ => Fail(Syntax(toks[i].pos))
  }

  function ParseCall(t: CharTable, toks: seq<Placed>, i: nat, name: string): (r: Result<Parsed<Expr>>)
    requires InRange(toks, i) && toks[i].tok == Ident(name)
    ensures r.Ok? ==> i < r.value.next < |toks|
    ensures r.Fail? ==> r.error.Syntax?
    decreases |toks| - i, 0
  {
    if toks[i + 1].tok != LParen then Fail(Syntax(toks[i].pos))
    else
      var args :- if toks[i + 2].tok == RParen then Ok(Parsed([], i + 2)) else ParseArgs(t, toks, i + 2, []);
      var close :- Expect(toks, args.next, RParen);
      Ok(Parsed(ECall(t.Upper(name), args.node), close))
  }

  /** Comma-separated arguments, appended to those already read. */
  function ParseArgs(t: CharTable, toks: seq<Placed>, i: nat, before: seq<Expr>): (r: Result<Parsed<seq<Expr>>>)
    requires InRange(toks, i)
    ensures r.Ok? ==> i < r.value.next < |toks|
    ensures r.Fail? ==> r.error.Syntax?
    decreases |toks| - i, 21
  {
    var arg :- ParseAt(t, TERNARY, toks, i);
    if toks[arg.next].tok == Comma then ParseArgs(t, toks, arg.next + 1, before + [arg.node])
    else Ok(Parsed(before + [arg.node], arg.next))
  }

  /** The whole input must be one expression. */
  function Parse(t: CharTable, toks: seq<Placed>): Result<Expr>
    requires Lexer.Terminated(toks)
  {
    var e :- ParseAt(t, TERNARY, toks, 0);
    if toks[e.next].tok == Eof then Ok(e.node) else Fail(Syntax(toks[e.next].pos))
  }
}
