/**
 Tokens and syntax trees of the per-row expression language
 (src/r2g/expressions.py).
 */
module ExpressionSyntax {
  /** An integer's value; a decimal literal is kept as its source text. */
  datatype Number = Int(value: nat) | Decimal(text: string)

  datatype Token =
    | LParen | RParen | Comma
    | Plus | Minus | Star | Slash | Percent
    | QMark | Colon
    | Eq | Neq | Lt | Lte | Gt | Gte
    | And | Or | Not | NullCoal
    | BoolLit(b: bool) | NullLit
    | Num(number: Number) | Str(text: string)
    | Bind(name: string) | Ident(name: string)
    | Eof

  /** A token and the column it starts at. */
  datatype Placed = Placed(tok: Token, pos: nat)

  datatype Expr =
    | ENum(number: Number)
    | EStr(text: string)
    | EBool(b: bool)
    | ENull
    | EBind(name: string)
    | ECall(name: string, args: seq<Expr>)
    | EUnary(op: string, arg: Expr)
    | EBin(op: string, left: Expr, right: Expr)
    | ETern(cond: Expr, yes: Expr, no: Expr)

  datatype Error =
    /** ExpressionError, with the column it names */
    | Syntax(column: nat)
    /** ValueError out of int() or float(): a digit character that is no decimal digit */
    | NotANumber(column: nat)
    | EmptyExpression
    | UnsupportedFunction(name: string)

  datatype Result<+T> = Ok(value: T) | Fail(error: Error) {
    predicate IsFailure() { Fail? }
    function PropagateFailure<U>(): Result<U> requires Fail? { Fail(error) }
    function Extract(): T requires Ok? { value }
  }

  /** The columns a row must supply: the bind parameters of the tree. */
  function Binds(e: Expr): set<string>
  {
    match e
    case EBind(name) => {name}
    case ECall(_, args) => BindsOfAll(args)
    case EUnary(_, arg) => Binds(arg)
    case EBin(_, l, r) => Binds(l) + Binds(r)
    case ETern(c, y, n) => Binds(c) + Binds(y) + Binds(n)
    case _ => {}
  }

  function BindsOfAll(es: seq<Expr>): set<string>
  {
    if es == [] then {} else Binds(es[0]) + BindsOfAll(es[1..])
  }

  lemma {:induction false} BindsOfAllAppend(es: seq<Expr>, e: Expr)
    ensures BindsOfAll(es + [e]) == BindsOfAll(es) + Binds(e)
  {
    if es == [] {
      assert [] + [e] == [e] && [e][1..] == [];
    } else {
      assert (es + [e])[1..] == es[1..] + [e];
      BindsOfAllAppend(es[1..], e);
    }
  }
}
