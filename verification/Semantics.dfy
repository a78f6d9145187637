/**
 What expressions mean, rule by rule and apart from the evaluator, and that the
 evaluator (src/r2g/expressions.py:483-580) gives exactly these meanings.
 */
module Semantics {
  import opened Characters
  import opened ExpressionSyntax
  import opened Evaluator
  import ParserFacts

  const FUNCTIONS := {
    "CONCAT", "CONCAT_SEPARATOR", "UPPER", "LOWER", "SUBSTRING", "LENGTH", "LTRIM", "RTRIM", "TRIM",
    "TO_STRING", "TO_NUMBER", "TO_BOOL", "CONTAINS", "COALESCE"}

  // ----- the rules

  /** The values that count as false. */
  predicate IsFalse(rt: Runtime, v: Value)
  {
    v == Null || v == Bool(false) || v == Integer(0) || v == Float(0.0) || v == Text("") || (v.Other? && !rt.truth(v.id))
  }

  /** What is passed on from a library operation: its value, or an error raised inside it. */
  ghost predicate PassedOn(inner: Outcome, r: Outcome)
  {
    && (inner.Value? ==> r == inner)
    && (inner.Error? ==> r.Error? && r.error.Raised?)
    && (inner.Error? && inner.error.Raised? ==> r == inner)
    && (inner.Error? && !inner.error.Raised? ==> r.error == Raised("library error"))
  }

  /** Arithmetic: null with anything is null; `+` joins as text if either side is text;
      elsewhere both sides are read as numbers, left and right in their places, and what is
      no number, or is divided by zero, gives null. */
  ghost predicate ArithMeans(rt: Runtime, op: string, a: Value, b: Value, r: Outcome)
  {
    if a.Null? || b.Null? then r == Value(Null)
    else
      && (op == "+" && (a.Text? || b.Text?) ==> r == Value(Text(rt.text(a) + rt.text(b))))
      && (op == "+" && !a.Text? && !b.Text? ==> PassedOn(rt.numeric("+", a, b), r))
      && (op != "+" && (rt.number(a).Null? || rt.number(b).Null?) ==> r == Value(Null))
      && (op != "+" && !rt.number(a).Null? && !rt.number(b).Null? ==>
            && (op in ["/", "%"] && rt.isZero(rt.number(b)) ==> r == Value(Null))
            && (op in ["/", "%"] && !rt.isZero(rt.number(b)) ==> PassedOn(rt.numeric(op, rt.number(a), rt.number(b)), r))
            && (op in ["-", "*"] ==> PassedOn(rt.numeric(op, rt.number(a), rt.number(b)), r)))
  }

  /** Comparison: null equals null only, and has no order. */
  ghost predicate CompareMeans(rt: Runtime, op: string, a: Value, b: Value, r: Outcome)
  {
    && (a.Null? && b.Null? ==> r == Value(if op == "==" then Bool(true) else if op == "!=" then Bool(false) else Null))
    && (a.Null? != b.Null? ==> r == Value(if op == "==" then Bool(false) else if op == "!=" then Bool(true) else Null))
    && (!a.Null? && !b.Null? ==> PassedOn(rt.order(op, a, b), r))
  }

  ghost predicate NegateMeans(rt: Runtime, v: Value, r: Outcome)
  {
    && (v.Null? || rt.number(v).Null? ==> r == Value(Null))
    && (!v.Null? && !rt.number(v).Null? ==> PassedOn(rt.negate(rt.number(v)), r))
  }

  /** `e` on this row comes to `r`. An error of an operand is the result. */
  ghost predicate Means(rt: Runtime, env: Row, e: Expr, r: Outcome)
    decreases e
  {
    match e
    case ENum(Int(n)) => r == Value(Integer(n))
    case ENum(Decimal(text)) => r == Value(rt.number(Text(text)))
    case EStr(text) => r == Value(Text(text))
    case EBool(b) => r == Value(Bool(b))
    case ENull => r == Value(Null)
    case EBind(name) => if name in env then r == Value(env[name]) else r == Value(Null)
    case EUnary(op, arg) => exists v :: Means(rt, env, arg, v) && UnaryMeans(rt, op, v, r)
    case EBin(op, left, right) =>
      exists a :: Means(rt, env, left, a) &&
        if Decides(rt, op, a) then DecidedBy(op, a, r)
        else exists b :: Means(rt, env, right, b) && BothMean(rt, op, a, b, r)
    case ETern(cond, yes, no) =>
      exists c :: Means(rt, env, cond, c) &&
        (if c.Error? then r == c else if IsFalse(rt, c.value) then Means(rt, env, no, r) else Means(rt, env, yes, r))
    case ECall(name, args) =>
      if name in FUNCTIONS then exists vs :: MeanAll(rt, env, args, vs) && CallMeans(rt, name, vs, r)
      else r == Error(UnsupportedCall(name))
  }

  /** The arguments in order, up to the first error. */
  ghost predicate MeanAll(rt: Runtime, env: Row, es: seq<Expr>, vs: seq<Outcome>)
    decreases es
  {
    if es == [] then vs == []
    else
      && vs != [] && Means(rt, env, es[0], vs[0])
      && if vs[0].Error? then |vs| == 1 else MeanAll(rt, env, es[1..], vs[1..])
  }

  ghost predicate CallMeans(rt: Runtime, name: string, vs: seq<Outcome>, r: Outcome)
  {
    if vs != [] && vs[|vs| - 1].Error? then r == vs[|vs| - 1]
    else (forall k :: 0 <= k < |vs| ==> vs[k].Value?) && PassedOn(rt.call(name, ValuesOf(vs)), r)
  }

  function ValuesOf(vs: seq<Outcome>): seq<Value>
    requires forall k :: 0 <= k < |vs| ==> vs[k].Value?
  {
    seq(|vs|, k requires 0 <= k < |vs| => vs[k].value)
  }

  ghost predicate UnaryMeans(rt: Runtime, op: string, v: Outcome, r: Outcome)
  {
    if v.Error? then r == v
    else if op == "not" then r == Value(Bool(IsFalse(rt, v.value)))
    else if op == "-" then NegateMeans(rt, v.value, r)
    else r == Error(UnknownUnary(op))
  }

  /** The left side alone decides. */
  ghost predicate Decides(rt: Runtime, op: string, a: Outcome)
  {
    || a.Error?
    || (op == "&&" && IsFalse(rt, a.value))
    || (op == "||" && !IsFalse(rt, a.value))
    || (op == "??" && !a.value.Null?)
  }

  ghost predicate DecidedBy(op: string, a: Outcome, r: Outcome)
  {
    if a.Error? || op == "??" then r == a else r == Value(Bool(op == "||"))
  }

  /** Both sides are needed. */
  ghost predicate BothMean(rt: Runtime, op: string, a: Outcome, b: Outcome, r: Outcome)
    requires a.Value?
  {
    if b.Error? || op == "??" then r == b
    else if op in ["&&", "||"] then r == Value(Bool(!IsFalse(rt, b.value)))
    else if op in ["+", "-", "*", "/", "%"] then ArithMeans(rt, op, a.value, b.value, r)
    else if op in ["==", "!=", "<", "<=", ">", ">="] then CompareMeans(rt, op, a.value, b.value, r)
    else r == Error(UnknownBinary(op))
  }

  // ----- the evaluator gives these meanings

  lemma TruthMeans(rt: Runtime, v: Value)
    ensures ToBool(rt, v) <==> !IsFalse(rt, v)
  {
  }

  lemma FunctionMeans(name: string)
    ensures SupportedName(name) <==> name in FUNCTIONS
  {
  }

  lemma GuardedMeans(inner: Outcome, r: Outcome)
    ensures PassedOn(inner, r) <==> r == Guarded(inner)
  {
  }

  lemma ArithIsMeant(rt: Runtime, op: string, a: Value, b: Value, r: Outcome)
    requires op in ["+", "-", "*", "/", "%"]
    ensures ArithMeans(rt, op, a, b, r) <==> r == Arith(rt, op, a, b)
  {
    GuardedMeans(rt.numeric(op, a, b), r);
    GuardedMeans(rt.numeric(op, rt.number(a), rt.number(b)), r);
    hide PassedOn, Guarded;
  }

  lemma CompareIsMeant(rt: Runtime, op: string, a: Value, b: Value, r: Outcome)
    requires op in ["==", "!=", "<", "<=", ">", ">="]
    ensures CompareMeans(rt, op, a, b, r) <==> r == Compare(rt, op, a, b)
  {
    GuardedMeans(rt.order(op, a, b), r);
    hide PassedOn, Guarded;
  }

  lemma UnaryIsMeant(rt: Runtime, env: Row, op: string, arg: Expr, r: Outcome)
    ensures UnaryMeans(rt, op, Eval(rt, arg, env), r) <==> r == Eval(rt, EUnary(op, arg), env)
  {
    var v := Eval(rt, arg, env);
    if v.Value? {
      TruthMeans(rt, v.value);
      GuardedMeans(rt.negate(rt.number(v.value)), r);
    }
    hide PassedOn, Guarded, IsFalse, ToBool;
  }

  /** The meaning of an operator from the meanings of its sides. */
  ghost predicate BinaryMeans(rt: Runtime, op: string, a: Outcome, b: Outcome, r: Outcome)
  {
    if Decides(rt, op, a) then DecidedBy(op, a, r) else BothMean(rt, op, a, b, r)
  }

  lemma DecidedIsMeant(rt: Runtime, op: string, a: Outcome, r: Outcome)
    requires a.Value?
    ensures Decides(rt, op, a) <==> ShortCircuits(rt, op, a.value)
    ensures Decides(rt, op, a) ==> (DecidedBy(op, a, r) <==> r == Value(ShortValue(rt, op, a.value)))
  {
    TruthMeans(rt, a.value);
    hide IsFalse, ToBool;
  }

  /** The result of an operator that needs both sides, as the evaluator computes it. */
  function BothResult(rt: Runtime, op: string, a: Value, right: Outcome): Outcome
  {
    if right.Error? then right
    else if op == "&&" || op == "||" then Value(Bool(ToBool(rt, right.value)))
    else if op == "??" then right
    else if ParserFacts.Arithmetic(op) then Arith(rt, op, a, right.value)
    else if ParserFacts.Comparison(op) then Compare(rt, op, a, right.value)
    else Error(UnknownBinary(op))
  }

  lemma BothIsMeant(rt: Runtime, op: string, a: Outcome, b: Outcome, r: Outcome)
    requires a.Value?
    ensures BothMean(rt, op, a, b, r) <==> r == BothResult(rt, op, a.value, b)
  {
    hide ArithMeans, CompareMeans, Arith, Compare, IsFalse, ToBool;
    if b.Value? {
      TruthMeans(rt, b.value);
      if op in ["+", "-", "*", "/", "%"] {
        ArithIsMeant(rt, op, a.value, b.value, r);
      }
      if op in ["==", "!=", "<", "<=", ">", ">="] {
        CompareIsMeant(rt, op, a.value, b.value, r);
      }
    }
  }

  lemma BinaryIsMeant(rt: Runtime, env: Row, op: string, left: Expr, right: Expr, r: Outcome)
    ensures BinaryMeans(rt, op, Eval(rt, left, env), Eval(rt, right, env), r) <==> r == Eval(rt, EBin(op, left, right), env)
  {
    var a, b := Eval(rt, left, env), Eval(rt, right, env);
    if a.Value? {
      hide Decides, DecidedBy, ShortCircuits, ShortValue, BothMean, Arith, Compare, ToBool;
      DecidedIsMeant(rt, op, a, r);
      BothIsMeant(rt, op, a, b, r);
    }
  }

  /** What the evaluator gets for the arguments, up to the first error. */
  function Results(rt: Runtime, es: seq<Expr>, env: Row): seq<Outcome>
  {
    if es == [] then []
    else if Eval(rt, es[0], env).Error? then [Eval(rt, es[0], env)]
    else [Eval(rt, es[0], env)] + Results(rt, es[1..], env)
  }

  lemma {:induction false} ResultsAre(rt: Runtime, es: seq<Expr>, env: Row)
    ensures var vs, all := Results(rt, es, env), EvalAll(rt, es, env);
      if all.Failed? then vs != [] && vs[|vs| - 1] == Error(all.error)
      else (forall k :: 0 <= k < |vs| ==> vs[k].Value?) && ValuesOf(vs) == all.vals
  {
    hide Eval;
    if es == [] {
    } else if Eval(rt, es[0], env).Value? {
      ResultsAre(rt, es[1..], env);
      var rest := Results(rt, es[1..], env);
      if EvalAll(rt, es[1..], env).Values? {
        assert ValuesOf([Eval(rt, es[0], env)] + rest) == [Eval(rt, es[0], env).value] + ValuesOf(rest);
      }
    }
  }

  lemma CallIsMeant(rt: Runtime, env: Row, name: string, args: seq<Expr>, r: Outcome)
    requires name in FUNCTIONS
    ensures CallMeans(rt, name, Results(rt, args, env), r) <==> r == Eval(rt, ECall(name, args), env)
  {
    FunctionMeans(name);
    ResultsAre(rt, args, env);
    hide Results, SupportedName;
    var all := EvalAll(rt, args, env);
    if all.Values? {
      GuardedMeans(rt.call(name, all.vals), r);
    }
    hide PassedOn, Guarded, EvalAll;
  }

  /** An expression means exactly what the evaluator gives. */
  lemma {:induction false} EvalMeans(rt: Runtime, env: Row, e: Expr, r: Outcome)
    ensures Means(rt, env, e, r) <==> r == Eval(rt, e, env)
    decreases e
  {
    match e {
      case EUnary(op, arg) =>
        UnaryIsMeant(rt, env, op, arg, r);
        forall v ensures Means(rt, env, arg, v) <==> v == Eval(rt, arg, env) {
          EvalMeans(rt, env, arg, v);
        }
        hide Eval, UnaryMeans;
      case EBin(op, left, right) =>
        BinaryIsMeant(rt, env, op, left, right, r);
        forall v ensures Means(rt, env, left, v) <==> v == Eval(rt, left, env) {
          EvalMeans(rt, env, left, v);
        }
        forall v ensures Means(rt, env, right, v) <==> v == Eval(rt, right, env) {
          EvalMeans(rt, env, right, v);
        }
        hide Eval, Decides, DecidedBy, BothMean;
      case ETern(cond, yes, no) =>
        forall v ensures Means(rt, env, cond, v) <==> v == Eval(rt, cond, env) {
          EvalMeans(rt, env, cond, v);
        }
        EvalMeans(rt, env, yes, r);
        EvalMeans(rt, env, no, r);
        var c := Eval(rt, cond, env);
        if c.Value? {
          TruthMeans(rt, c.value);
        }
        hide IsFalse, ToBool;
      case ECall(name, args) =>
        FunctionMeans(name);
        if name in FUNCTIONS {
          CallIsMeant(rt, env, name, args, r);
          forall vs ensures MeanAll(rt, env, args, vs) <==> vs == Results(rt, args, env) {
            ArgumentsMean(rt, env, args, vs);
          }
          hide Eval, CallMeans, Results;
        }
      case _ =>
    }
  }

  lemma {:induction false} ArgumentsMean(rt: Runtime, env: Row, es: seq<Expr>, vs: seq<Outcome>)
    ensures MeanAll(rt, env, es, vs) <==> vs == Results(rt, es, env)
    decreases es
  {
    if es == [] {
    } else if vs != [] {
      EvalMeans(rt, env, es[0], vs[0]);
      ArgumentsMean(rt, env, es[1..], vs[1..]);
      hide Eval, Means;
      assert vs == [vs[0]] + vs[1..];
    }
  }

  // ----- laws

  /** Negating moves through the other logical operators. */
  lemma Negations(rt: Runtime, env: Row, a: Expr, b: Expr)
    ensures Eval(rt, EUnary("not", EBin("&&", a, b)), env)
         == Eval(rt, EBin("||", EUnary("not", a), EUnary("not", b)), env)
    ensures Eval(rt, EUnary("not", EBin("||", a, b)), env)
         == Eval(rt, EBin("&&", EUnary("not", a), EUnary("not", b)), env)
    ensures Eval(rt, ETern(EUnary("not", a), a, b), env) == Eval(rt, ETern(a, b, a), env)
  {
  }

  /** `&&`, `||` and `??` may be grouped either way. */
  lemma Groupings(rt: Runtime, env: Row, op: string, a: Expr, b: Expr, c: Expr)
    requires op in ["&&", "||", "??"]
    ensures Eval(rt, EBin(op, EBin(op, a, b), c), env) == Eval(rt, EBin(op, a, EBin(op, b, c)), env)
  {
  }
}
