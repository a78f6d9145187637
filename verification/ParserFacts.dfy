/**
 What every parsed tree satisfies: its bind parameters are exactly the BIND
 tokens it was parsed from, and all its operators are known to the evaluator.
 */
module ParserFacts {
  import opened Characters
  import opened ExpressionSyntax
  import Lexer
  import opened Parser

  /** The names of the BIND tokens from `i` up to `j`. */
  ghost function BindNames(toks: seq<Placed>, i: nat, j: nat): set<string>
    requires i <= j <= |toks|
    decreases j
  {
    if i == j then {}
    else if toks[j - 1].tok.Bind? then BindNames(toks, i, j - 1) + {toks[j - 1].tok.name}
    else BindNames(toks, i, j - 1)
  }

  ghost predicate NamesAre(toks: seq<Placed>, i: nat, j: nat, names: set<string>)
  {
    i <= j <= |toks| && BindNames(toks, i, j) == names
  }

  lemma {:induction false} NamesJoin(toks: seq<Placed>, i: nat, j: nat, k: nat, a: set<string>, b: set<string>)
    requires NamesAre(toks, i, j, a) && NamesAre(toks, j, k, b)
    ensures NamesAre(toks, i, k, a + b)
    decreases k
  {
    if j < k {
      NamesJoin(toks, i, j, k - 1, a, BindNames(toks, j, k - 1));
    }
  }

  lemma NamesSkip(toks: seq<Placed>, i: nat, j: nat, names: set<string>)
    requires NamesAre(toks, i, j, names) && j < |toks| && !toks[j].tok.Bind?
    ensures NamesAre(toks, i, j + 1, names)
  {
  }

  lemma NamesLead(toks: seq<Placed>, i: nat, j: nat, names: set<string>)
    requires i < |toks| && NamesAre(toks, i + 1, j, names) && !toks[i].tok.Bind?
    ensures NamesAre(toks, i, j, names)
  {
    assert NamesAre(toks, i, i, {});
    NamesSkip(toks, i, i, {});
    NamesJoin(toks, i, i + 1, j, {}, names);
  }

  predicate KnownUnary(op: string) { op == "-" || op == "not" }

  predicate Arithmetic(op: string) { op == "+" || op == "-" || op == "*" || op == "/" || op == "%" }

  predicate Comparison(op: string)
  {
    op == "==" || op == "!=" || op == "<" || op == "<=" || op == ">" || op == ">="
  }

  predicate KnownBinary(op: string)
  {
    op == "&&" || op == "||" || op == "??" || Arithmetic(op) || Comparison(op)
  }

  /** Every operator in the tree is one `_eval` handles. */
  predicate KnownOperators(e: Expr)
  {
    match e
    case ECall(_, args) => forall a :: a in args ==> KnownOperators(a)
    case EUnary(op, arg) => KnownUnary(op) && KnownOperators(arg)
    case EBin(op, l, r) => KnownBinary(op) && KnownOperators(l) && KnownOperators(r)
    case ETern(c, y, n) => KnownOperators(c) && KnownOperators(y) && KnownOperators(n)
    case _ => true
  }

  /** `e` is a sound reading of the tokens from `i` up to `j`. */
  ghost predicate ReadFrom(toks: seq<Placed>, i: nat, e: Expr, j: nat)
  {
    NamesAre(toks, i, j, Binds(e)) && KnownOperators(e)
  }

  ghost predicate Sound(toks: seq<Placed>, i: nat, r: Result<Parsed<Expr>>)
  {
    r.Ok? ==> ReadFrom(toks, i, r.value.node, r.value.next)
  }

  lemma {:induction false} ParseFacts(t: CharTable, level: nat, toks: seq<Placed>, i: nat)
    requires InRange(toks, i) && level <= PRIMARY
    ensures Sound(toks, i, ParseAt(t, level, toks, i))
    decreases |toks| - i, 20 - level, 1
  {
    if level == TERNARY {
      TernaryFacts(t, toks, i);
    } else if level == NOT {
      if toks[i].tok == Not {
        ParseFacts(t, NOT, toks, i + 1);
        PrefixFacts(toks, i, ParseAt(t, NOT, toks, i + 1));
      } else {
        ParseFacts(t, EQUALITY, toks, i);
      }
    } else if level == UNARY {
      if toks[i].tok == Minus || toks[i].tok == Plus {
        ParseFacts(t, UNARY, toks, i + 1);
        PrefixFacts(toks, i, ParseAt(t, UNARY, toks, i + 1));
      } else {
        ParseFacts(t, PRIMARY, toks, i);
      }
    } else if level == PRIMARY {
      PrimaryFacts(t, toks, i);
    } else {
      ParseFacts(t, level + 1, toks, i);
      var left := ParseAt(t, level + 1, toks, i);
      if left.Ok? {
        LoopFacts(t, level, toks, i, left.value.next, left.value.node);
      }
    }
  }

  /** A token before a reading that binds nothing extends it to the left. */
  lemma PrefixFacts(toks: seq<Placed>, i: nat, r: Result<Parsed<Expr>>)
    requires i < |toks| && Sound(toks, i + 1, r) && !toks[i].tok.Bind?
    ensures Sound(toks, i, r)
  {
    if r.Ok? {
      NamesLead(toks, i, r.value.next, Binds(r.value.node));
    }
  }

  lemma {:induction false} TernaryFacts(t: CharTable, toks: seq<Placed>, i: nat)
    requires InRange(toks, i)
    ensures Sound(toks, i, ParseAt(t, TERNARY, toks, i))
    decreases |toks| - i, 20 - TERNARY, 0
  {
    ParseFacts(t, NULLCOAL, toks, i);
    if ParseAt(t, TERNARY, toks, i).Ok? {
      var cond := ParseAt(t, NULLCOAL, toks, i).value;
      if toks[cond.next].tok == QMark {
        ParseFacts(t, TERNARY, toks, cond.next + 1);
        var yes := ParseAt(t, TERNARY, toks, cond.next + 1).value;
        ParseFacts(t, TERNARY, toks, yes.next + 1);
        var no := ParseAt(t, TERNARY, toks, yes.next + 1).value;
        JoinBranches(toks, i, cond, yes, no);
      }
    }
  }

  lemma JoinBranches(toks: seq<Placed>, i: nat, cond: Parsed<Expr>, yes: Parsed<Expr>, no: Parsed<Expr>)
    requires ReadFrom(toks, i, cond.node, cond.next)
    requires cond.next < |toks| && toks[cond.next].tok == QMark
    requires ReadFrom(toks, cond.next + 1, yes.node, yes.next)
    requires yes.next < |toks| && toks[yes.next].tok == Colon
    requires ReadFrom(toks, yes.next + 1, no.node, no.next)
    ensures ReadFrom(toks, i, ETern(cond.node, yes.node, no.node), no.next)
  {
    var c, y, n := Binds(cond.node), Binds(yes.node), Binds(no.node);
    NamesSkip(toks, i, cond.next, c);
    NamesJoin(toks, i, cond.next + 1, yes.next, c, y);
    NamesSkip(toks, i, yes.next, c + y);
    NamesJoin(toks, i, yes.next + 1, no.next, c + y, n);
  }

  /** `left` was read from `start`; the loop extends the reading. */
  lemma {:induction false} LoopFacts(t: CharTable, level: nat, toks: seq<Placed>, start: nat, i: nat, left: Expr)
    requires InRange(toks, i) && BinaryLevel(level) && ReadFrom(toks, start, left, i)
    ensures Sound(toks, start, ParseLoop(t, level, toks, i, left))
    decreases |toks| - i, 20 - level, 0
  {
    hide NamesAre, ParseAt;
    var op := OperatorAt(level, toks[i].tok);
    if op.Some? {
      ParseFacts(t, level + 1, toks, i + 1);
      var right := ParseAt(t, level + 1, toks, i + 1);
      if right.Ok? {
        NamesSkip(toks, start, i, Binds(left));
        NamesJoin(toks, start, i + 1, right.value.next, Binds(left), Binds(right.value.node));
        LoopFacts(t, level, toks, start, right.value.next, EBin(op.value, left, right.value.node));
      }
    }
  }

  lemma {:induction false} PrimaryFacts(t: CharTable, toks: seq<Placed>, i: nat)
    requires InRange(toks, i)
    ensures Sound(toks, i, ParsePrimary(t, toks, i))
    decreases |toks| - i, 1, 0
  {
    assert NamesAre(toks, i, i, {});
    match toks[i].tok {
      case LParen =>
        ParseFacts(t, TERNARY, toks, i + 1);
        var e := ParseAt(t, TERNARY, toks, i + 1);
        PrefixFacts(toks, i, e);
        if e.Ok? && toks[e.value.next].tok == RParen {
          NamesSkip(toks, i, e.value.next, Binds(e.value.node));
        }
      case Ident(name) =>
        CallFacts(t, toks, i, name);
      case _ =>
    }
  }

  lemma {:induction false} CallFacts(t: CharTable, toks: seq<Placed>, i: nat, name: string)
    requires InRange(toks, i) && toks[i].tok == Ident(name)
    ensures Sound(toks, i, ParseCall(t, toks, i, name))
    decreases |toks| - i, 0, 0
  {
    if toks[i + 1].tok == LParen {
      assert NamesAre(toks, i, i, {});
      NamesSkip(toks, i, i, {});
      NamesSkip(toks, i, i + 1, {});
      if toks[i + 2].tok == RParen {
        NamesSkip(toks, i, i + 2, {});
      } else {
        ArgsFacts(t, toks, i, i + 2, []);
        var args := ParseArgs(t, toks, i + 2, []);
        if args.Ok? && toks[args.value.next].tok == RParen {
          NamesSkip(toks, i, args.value.next, BindsOfAll(args.value.node));
        }
      }
    }
  }

  ghost predicate SoundArgs(toks: seq<Placed>, start: nat, args: seq<Expr>, next: nat)
  {
    NamesAre(toks, start, next, BindsOfAll(args)) && forall a :: a in args ==> KnownOperators(a)
  }

  lemma {:induction false} ArgsFacts(t: CharTable, toks: seq<Placed>, start: nat, i: nat, before: seq<Expr>)
    requires InRange(toks, i) && SoundArgs(toks, start, before, i)
    ensures var r := ParseArgs(t, toks, i, before); r.Ok? ==> SoundArgs(toks, start, r.value.node, r.value.next)
    decreases |toks| - i, 21, 0
  {
    ParseFacts(t, TERNARY, toks, i);
    var arg := ParseAt(t, TERNARY, toks, i);
    if arg.Ok? {
      BindsOfAllAppend(before, arg.value.node);
      NamesJoin(toks, start, i, arg.value.next, BindsOfAll(before), Binds(arg.value.node));
      var args := before + [arg.value.node];
      if toks[arg.value.next].tok == Comma {
        NamesSkip(toks, start, arg.value.next, BindsOfAll(args));
        ArgsFacts(t, toks, start, arg.value.next + 1, args);
      }
    }
  }

  /** The columns a parsed expression references are its BIND tokens, and its
      operators are all known. */
  lemma ParseBinds(t: CharTable, toks: seq<Placed>)
    requires Lexer.Terminated(toks) && Parse(t, toks).Ok?
    ensures Binds(Parse(t, toks).value) == BindNames(toks, 0, |toks|)
    ensures KnownOperators(Parse(t, toks).value)
  {
    ParseFacts(t, TERNARY, toks, 0);
    var e := ParseAt(t, TERNARY, toks, 0).value;
    assert e.next == |toks| - 1;
    NamesSkip(toks, 0, e.next, Binds(e.node));
  }
}
