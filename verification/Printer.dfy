/**
 A precedence-aware printer for syntax trees, and the proof that the parser
 reads back exactly the tree that was printed.
 */
module Printer {
  import opened Characters
  import opened ExpressionSyntax
  import opened Lexer
  import opened Parser
  import opened Grammar
  import ParserFacts

  /** The grammar level whose rule builds the node. */
  function LevelOf(e: Expr): (level: nat)
    ensures level <= PRIMARY
  {
    match e
    case ETern(_, _, _) => TERNARY
    case EBin(op, _, _) => OperatorLevel(op)
    case EUnary(op, _) => if op == "not" then NOT else UNARY
    case _ => PRIMARY
  }

  function OperatorLevel(op: string): (level: nat)
    ensures level <= TERM
    ensures ParserFacts.KnownBinary(op) ==> BinaryLevel(level)
  {
    if op == "??" then NULLCOAL
    else if op == "||" then OR
    else if op == "&&" then AND
    else if op == "==" || op == "!=" then EQUALITY
    else if ParserFacts.Comparison(op) then COMPARE
    else if op == "+" || op == "-" then ADDITIVE
    else TERM
  }

  function OperatorToken(op: string): (tok: Token)
    ensures ParserFacts.KnownBinary(op) ==> OperatorAt(OperatorLevel(op), tok) == Some(op)
  {
    if op == "??" then NullCoal else if op == "||" then Or else if op == "&&" then And
    else if op == "==" then Eq else if op == "!=" then Neq
    else if op == "<" then Lt else if op == "<=" then Lte
    else if op == ">" then Gt else if op == ">=" then Gte
    else if op == "+" then Plus else if op == "-" then Minus
    else if op == "*" then Star else if op == "/" then Slash else Percent
  }

  /** Trees the parser can produce and text can name. */
  predicate Printable(t: CharTable, e: Expr)
  {
    match e
    case ENum(number) => number.Int? || DecimalText(t, number.text)
    case EBind(name) => t.Word(name)
    case ECall(name, args) =>
      && t.Word(name) && t.Upper(name) == name && !Keyword(t.Lower(name))
      && forall a :: a in args ==> Printable(t, a)
    case EUnary(op, arg) => ParserFacts.KnownUnary(op) && Printable(t, arg)
    case EBin(op, l, r) => ParserFacts.KnownBinary(op) && Printable(t, l) && Printable(t, r)
    case ETern(c, y, n) => Printable(t, c) && Printable(t, y) && Printable(t, n)
    case _ => true
  }

  /** Digits with one point among them. */
  predicate DecimalText(t: CharTable, x: string)
  {
    && |x| >= 2 && '.' in x
    && (forall k :: 0 <= k < |x| && x[k] != '.' ==> t.isDigit(x[k]) && t.decimal(x[k]).Some?)
    && (forall j, k :: 0 <= j < k < |x| ==> x[j] != '.' || x[k] != '.')
  }

  // ----- printing to tokens

  /** `e` where the grammar wants a node of `level` or tighter. */
  function Print(e: Expr, level: nat): seq<Token>
    decreases e, 1
  {
    if LevelOf(e) < level then [LParen] + Body(e) + [RParen] else Body(e)
  }

  function Body(e: Expr): seq<Token>
    decreases e, 0
  {
    match e
    case ENum(number) => [Num(number)]
    case EStr(text) => [Str(text)]
    case EBool(b) => [BoolLit(b)]
    case ENull => [NullLit]
    case EBind(name) => [Bind(name)]
    case ECall(name, args) => [Ident(name), LParen] + PrintArgs(args) + [RParen]
    case EUnary(op, arg) => if op == "not" then [Not] + Print(arg, NOT) else [Minus] + Print(arg, UNARY)
    case EBin(op, l, r) => Print(l, OperatorLevel(op)) + [OperatorToken(op)] + Print(r, OperatorLevel(op) + 1)
    case ETern(c, y, n) => Print(c, NULLCOAL) + [QMark] + Print(y, TERNARY) + [Colon] + Print(n, TERNARY)
  }

  function PrintArgs(args: seq<Expr>): seq<Token>
  {
    if args == [] then []
    else if |args| == 1 then Print(args[0], TERNARY)
    else Print(args[0], TERNARY) + [Comma] + PrintArgs(args[1..])
  }

  // ----- reading back

  /** A phrase of one level is a phrase of every looser one. */
  lemma {:induction false} Loosened(t: CharTable, from: nat, to: nat, e: Expr, w: seq<Token>)
    requires to <= from <= PRIMARY && Derives(t, from, e, w)
    ensures Derives(t, to, e, w)
    decreases from
  {
    if to < from {
      Loosened(t, from - 1, to, e, w);
    }
  }

  /** The grammar derives what is printed, with the printed tree. */
  lemma {:induction false} PrintDerives(t: CharTable, e: Expr, level: nat)
    requires Printable(t, e) && level <= PRIMARY
    ensures Derives(t, level, e, Print(e, level))
    decreases e, 2
  {
    hide Derives, Printable, Body;
    BodyDerives(t, e);
    if LevelOf(e) < level {
      Loosened(t, LevelOf(e), TERNARY, e, Body(e));
      GroupDerives(t, e, Body(e));
      Loosened(t, PRIMARY, level, e, Print(e, level));
    } else {
      Loosened(t, LevelOf(e), level, e, Body(e));
    }
  }

  lemma GroupDerives(t: CharTable, e: Expr, w: seq<Token>)
    requires Derives(t, TERNARY, e, w)
    ensures Derives(t, PRIMARY, e, [LParen] + w + [RParen])
  {
    assert IsGroup(t, e, [LParen] + w + [RParen]);
  }

  lemma {:induction false} BodyDerives(t: CharTable, e: Expr)
    requires Printable(t, e)
    ensures Derives(t, LevelOf(e), e, Body(e))
    decreases e, 1
  {
    hide Print, OPERATORS;
    match e {
      case EUnary(op, arg) =>
        PrintDerives(t, arg, LevelOf(e));
        HeadOf(t, LevelOf(e), arg, Print(arg, LevelOf(e)));
        assert Body(e)[1..] == Print(arg, LevelOf(e));
      case EBin(op, l, r) =>
        var level := OperatorLevel(op);
        PrintDerives(t, l, level);
        PrintDerives(t, r, level + 1);
        OperatorsExact(level, OperatorToken(op), op);
        assert IsBinary(t, level, e, Body(e));
      case ETern(c, y, n) =>
        PrintDerives(t, c, NULLCOAL);
        PrintDerives(t, y, TERNARY);
        PrintDerives(t, n, TERNARY);
        assert IsTernary(t, e, Body(e));
      case ECall(name, args) =>
        ArgumentsDerive(t, args);
        assert IsCall(t, e, Body(e));
      case _ =>
        assert IsLeaf(e, Body(e));
    }
  }

  lemma {:induction false} ArgumentsDerive(t: CharTable, args: seq<Expr>)
    requires forall a :: a in args ==> Printable(t, a)
    ensures IsArguments(t, args, PrintArgs(args))
    decreases args
  {
    hide Derives, Print, Printable;
    if args != [] {
      PrintDerives(t, args[0], TERNARY);
      ArgumentsDerive(t, args[1..]);
    }
  }

  /** A token sequence that spells a printed tree and then ends parses to it. */
  lemma ParsePrinted(t: CharTable, e: Expr, toks: seq<Placed>)
    requires Printable(t, e) && Terminated(toks)
    requires |toks| == |Print(e, TERNARY)| + 1 && Holds(toks, 0, Print(e, TERNARY))
    ensures Parse(t, toks) == Ok(e)
  {
    hide Derives, Printable, Print, Parse;
    PrintDerives(t, e, TERNARY);
    assert Between(toks, 0, |toks| - 1) == Print(e, TERNARY) by {
      forall k | 0 <= k < |toks| - 1 ensures toks[k].tok == Print(e, TERNARY)[k] {
        assert toks[0 + k].tok == Print(e, TERNARY)[k];
      }
    }
    ParseExactly(t, toks, e);
  }
}
