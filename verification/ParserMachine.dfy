/**
 The parser object: a cursor over the tokens, moved by one method per kind of
 grammar level.
 */
module ParserMachine {
  import opened Characters
  import opened ExpressionSyntax
  import Lexer
  import opened Parser

  /** The method returned what the grammar says and left the cursor after it. */
  ghost predicate Agrees<T>(spec: Result<Parsed<T>>, r: Result<T>, i: nat)
  {
    match spec
    case Ok(p) => r == Ok(p.node) && i == p.next
    case Fail(e) => r == Fail(e)
  }

  /** One turn of the loop over the operators of a level. */
  lemma LoopTurn(t: CharTable, level: nat, toks: seq<Placed>, i: nat, left: Expr)
    requires InRange(toks, i) && BinaryLevel(level)
    ensures var op := OperatorAt(level, toks[i].tok);
      && (op.None? ==> ParseLoop(t, level, toks, i, left) == Ok(Parsed(left, i)))
      && (op.Some? ==> InRange(toks, i + 1))
      && (op.Some? ==>
            var right, loop := ParseAt(t, level + 1, toks, i + 1), ParseLoop(t, level, toks, i, left);
            if right.Ok? then loop == ParseLoop(t, level, toks, right.value.next, EBin(op.value, left, right.value.node))
            else loop == Fail(right.error))
  {
    hide ParseAt;
  }

  class Machine {
    const t: CharTable
    const toks: seq<Placed>
    var i: nat

    ghost predicate Valid()
      reads this
    {
      InRange(toks, i)
    }

    constructor (t: CharTable, toks: seq<Placed>)
      requires Lexer.Terminated(toks)
      ensures Valid() && i == 0 && this.t == t && this.toks == toks
    {
      this.t, this.toks, this.i := t, toks, 0;
    }

    method Expect(tok: Token) returns (r: Result<()>)
      requires Valid() && tok != Eof
      modifies this`i
      ensures Valid()
      ensures r == (if toks[old(i)].tok == tok then Ok(()) else Fail(Syntax(toks[old(i)].pos)))
      ensures i == if r.Ok? then old(i) + 1 else old(i)
    {
      if toks[i].tok != tok {
        return Fail(Syntax(toks[i].pos));
      }
      i := i + 1;
      r := Ok(());
    }

    method Level(level: nat) returns (r: Result<Expr>)
      requires Valid() && level <= PRIMARY
      modifies this`i
      ensures Valid() && Agrees(ParseAt(t, level, toks, old(i)), r, i)
      decreases |toks| - i, 20 - level, 1
    {
      if level == TERNARY {
        r := Ternary();
      } else if level == NOT {
        r := Negation();
      } else if level == UNARY {
        r := Unary();
      } else if level == PRIMARY {
        r := Primary();
      } else {
        r := Binary(level);
      }
    }

    method Ternary() returns (r: Result<Expr>)
      requires Valid()
      modifies this`i
      ensures Valid() && Agrees(ParseAt(t, TERNARY, toks, old(i)), r, i)
      decreases |toks| - i, 20 - TERNARY, 0
    {
      var cond :- Level(NULLCOAL);
      if toks[i].tok != QMark {
        return Ok(cond);
      }
      i := i + 1;
      var yes :- Level(TERNARY);
      var _ :- Expect(Colon);
      var no :- Level(TERNARY);
      r := Ok(ETern(cond, yes, no));
    }

    method Binary(level: nat) returns (r: Result<Expr>)
      requires Valid() && BinaryLevel(level)
      modifies this`i
      ensures Valid() && Agrees(ParseAt(t, level, toks, old(i)), r, i)
      decreases |toks| - i, 20 - level, 0
    {
      var left :- Level(level + 1);
      r := Fold(level, left);
    }

    /** Folds operands from the left for as long as an operator of this level is next. */
    method Fold(level: nat, first: Expr) returns (r: Result<Expr>)
      requires Valid() && BinaryLevel(level)
      modifies this`i
      ensures Valid() && Agrees(ParseLoop(t, level, toks, old(i), first), r, i)
      decreases |toks| - i, 20 - level, 0
    {
      hide ParseAt, ParseLoop, OperatorAt, Lexer.Terminated;
      var left := first;
      var op := OperatorAt(level, toks[i].tok);
      while op.Some?
        invariant Valid() && old(i) <= i && op == OperatorAt(level, toks[i].tok)
        invariant ParseLoop(t, level, toks, old(i), first) == ParseLoop(t, level, toks, i, left)
        decreases |toks| - i
      {
        LoopTurn(t, level, toks, i, left);
        i := i + 1;
        var right :- Level(level + 1);
        left := EBin(op.value, left, right);
        op := OperatorAt(level, toks[i].tok);
      }
      LoopTurn(t, level, toks, i, left);
      r := Ok(left);
    }

    method Negation() returns (r: Result<Expr>)
      requires Valid()
      modifies this`i
      ensures Valid() && Agrees(ParseAt(t, NOT, toks, old(i)), r, i)
      decreases |toks| - i, 20 - NOT, 0
    {
      if toks[i].tok == Not {
        i := i + 1;
        var arg :- Level(NOT);
        return Ok(EUnary("not", arg));
      }
      r := Level(EQUALITY);
    }

    method Unary() returns (r: Result<Expr>)
      requires Valid()
      modifies this`i
      ensures Valid() && Agrees(ParseAt(t, UNARY, toks, old(i)), r, i)
      decreases |toks| - i, 20 - UNARY, 0
    {
      if toks[i].tok == Minus {
        i := i + 1;
        var arg :- Level(UNARY);
        return Ok(EUnary("-", arg));
      }
      if toks[i].tok == Plus {
        i := i + 1;
        r := Level(UNARY);
      } else {
        r := Level(PRIMARY);
      }
    }

    method Primary() returns (r: Result<Expr>)
      requires Valid()
      modifies this`i
      ensures Valid() && Agrees(ParsePrimary(t, toks, old(i)), r, i)
      decreases |toks| - i, 1, 0
    {
      var token := toks[i];
      match token.tok {
        case Num(number) => i := i + 1; r := Ok(ENum(number));
        case Str(text) => i := i + 1; r := Ok(EStr(text));
        case BoolLit(b) => i := i + 1; r := Ok(EBool(b));
        case NullLit => i := i + 1; r := Ok(ENull);
        case Bind(name) => i := i + 1; r := Ok(EBind(name));
        case LParen => r := Parenthesized();
        case Ident(name) => r := Call(name);
        case _ => r := Fail(Syntax(token.pos));
      }
    }

    method Parenthesized() returns (r: Result<Expr>)
      requires Valid() && toks[i].tok == LParen
      modifies this`i
      ensures Valid() && Agrees(ParsePrimary(t, toks, old(i)), r, i)
      decreases |toks| - i, 0, 0
    {
      i := i + 1;
      var e :- Level(TERNARY);
      var _ :- Expect(RParen);
      r := Ok(e);
    }

    method Call(name: string) returns (r: Result<Expr>)
      requires Valid() && toks[i].tok == Ident(name)
      modifies this`i
      ensures Valid() && Agrees(ParseCall(t, toks, old(i), name), r, i)
      decreases |toks| - i, 0, 0
    {
      var token := toks[i];
      i := i + 1;
      if toks[i].tok != LParen {
        return Fail(Syntax(token.pos));
      }
      i := i + 1;
      var args := [];
      if toks[i].tok != RParen {
        args :- Arguments();
      }
      var _ :- Expect(RParen);
      r := Ok(ECall(t.Upper(name), args));
    }

    /** One argument, and another after every comma. */
    method Arguments() returns (r: Result<seq<Expr>>)
      requires Valid()
      modifies this`i
      ensures Valid() && Agrees(ParseArgs(t, toks, old(i), []), r, i)
      decreases |toks| - i, 21, 0
    {
      hide ParseAt;
      ghost var spec := ParseArgs(t, toks, i, []);
      var first :- Level(TERNARY);
      var args := [first];
      assert [] + [first] == args;
      while toks[i].tok == Comma
        invariant Valid() && old(i) < i
        invariant spec == if toks[i].tok == Comma then ParseArgs(t, toks, i + 1, args) else Ok(Parsed(args, i))
        decreases |toks| - i
      {
        i := i + 1;
        var arg :- Level(TERNARY);
        args := args + [arg];
      }
      r := Ok(args);
    }
  }

  /** A whole token sequence: one expression, then the end of input. */
  method ParseTokens(t: CharTable, toks: seq<Placed>) returns (r: Result<Expr>)
    requires Lexer.Terminated(toks)
    ensures r == Parse(t, toks)
  {
    var machine := new Machine(t, toks);
    var e :- machine.Level(TERNARY);
    if toks[machine.i].tok != Eof {
      return Fail(Syntax(toks[machine.i].pos));
    }
    r := Ok(e);
  }
}
