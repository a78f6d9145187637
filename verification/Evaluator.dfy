/**
 Compiling an expression and evaluating it on a row. Arithmetic, ordering and
 the string functions themselves are parameters (`Runtime`); the dispatch, the
 null rules and the short-circuits are the evaluator's own.
 */
module Evaluator {
  import Names
  import opened Characters
  import opened ExpressionSyntax
  import opened Lexer
  import Parser
  import ParserMachine
  import ParserFacts
  import BindScan

  datatype Value = Null | Bool(b: bool) | Integer(i: int) | Float(x: real) | Text(s: string) | Other(id: nat)

  datatype EvalError =
    | UnsupportedCall(name: string)
    | UnknownUnary(op: string)
    | UnknownBinary(op: string)
    | UnknownArithmetic(op: string)
    | UnknownComparison(op: string)
    /** raised inside a library function: a wrong argument count, an overflow */
    | Raised(what: string)

  datatype Outcome = Value(value: Value) | Error(error: EvalError)

  /** Python's own operations on values. */
  datatype Runtime = Runtime(
    call: (string, seq<Value>) -> Outcome,
    /** `_to_string` */
    text: Value -> string,
    /** `_to_number`: Null when the value is no number */
    number: Value -> Value,
    isZero: Value -> bool,
    /** `a + b`, `na - nb`, ... on non-null operands */
    numeric: (string, Value, Value) -> Outcome,
    negate: Value -> Outcome,
    /** `a < b`, ... on non-null operands, falling back to text */
    order: (string, Value, Value) -> Outcome,
    truth: nat -> bool)

  function ToBool(rt: Runtime, v: Value): bool
  {
    match v
    case Null => false
    case Bool(b) => b
    case Integer(i) => i != 0
    case Float(x) => x != 0.0
    case Text(s) => s != ""
    case Other(id) => rt.truth(id)
  }

  /** A primitive may raise, but only an error of its own. */
  function Guarded(r: Outcome): (q: Outcome)
    ensures q.Error? ==> q.error.Raised?
  {
    if r.Error? && !r.error.Raised? then Error(Raised("library error")) else r
  }

  /** `_arith` */
  function Arith(rt: Runtime, op: string, a: Value, b: Value): Outcome
  {
    if a == Null || b == Null then Value(Null)
    else if op == "+" && (a.Text? || b.Text?) then Value(Text(rt.text(a) + rt.text(b)))
    else if op == "+" then Guarded(rt.numeric(op, a, b))
    else
      var na, nb := rt.number(a), rt.number(b);
      if na == Null || nb == Null then Value(Null)
      else if op == "-" || op == "*" then Guarded(rt.numeric(op, na, nb))
      else if op == "/" || op == "%" then
        if rt.isZero(nb) then Value(Null) else Guarded(rt.numeric(op, na, nb))
      else Error(UnknownArithmetic(op))
  }

  /** `_compare` */
  function Compare(rt: Runtime, op: string, a: Value, b: Value): Outcome
  {
    if a == Null || b == Null then
      if op == "==" then Value(Bool(a == b))
      else if op == "!=" then Value(Bool(a != b))
      else Value(Null)
    else if ParserFacts.Comparison(op) then Guarded(rt.order(op, a, b))
    else Error(UnknownComparison(op))
  }

  predicate SupportedName(name: string)
  {
    name in ["CONCAT", "CONCAT_SEPARATOR", "UPPER", "LOWER", "SUBSTRING", "LENGTH", "LTRIM", "RTRIM",
             "TRIM", "TO_STRING", "TO_NUMBER", "TO_BOOL", "CONTAINS", "COALESCE"]
  }

  type Row = map<string, Value>

  /** `env.get(name)` */
  function Lookup(env: Row, name: string): Value
  {
    if name in env then env[name] else Null
  }

  /** `_eval` */
  function Eval(rt: Runtime, e: Expr, env: Row): Outcome
  {
    match e
    case ENum(number) => if number.Int? then Value(Integer(number.value)) else Value(rt.number(Text(number.text)))
    case EStr(text) => Value(Text(text))
    case EBool(b) => Value(Bool(b))
    case ENull => Value(Null)
    case EBind(name) => Value(Lookup(env, name))
    case ECall(name, args) =>
      if !SupportedName(name) then Error(UnsupportedCall(name))
      else
        (match EvalAll(rt, args, env)
         case Values(vals) => Guarded(rt.call(name, vals))
         case Failed(error) => Error(error))
    case EUnary(op, arg) =>
      var v := Eval(rt, arg, env);
      if v.Error? then v
      else if op == "-" then
        if v.value == Null then Value(Null)
        else
          var n := rt.number(v.value);
          if n == Null then Value(Null) else Guarded(rt.negate(n))
      else if op == "not" then Value(Bool(!ToBool(rt, v.value)))
      else Error(UnknownUnary(op))
    case EBin(op, l, r) =>
      var left := Eval(rt, l, env);
      if left.Error? then left
      else if ShortCircuits(rt, op, left.value) then Value(ShortValue(rt, op, left.value))
      else
        var right := Eval(rt, r, env);
        if right.Error? then right
        else if op == "&&" || op == "||" then Value(Bool(ToBool(rt, right.value)))
        else if op == "??" then right
        else if ParserFacts.Arithmetic(op) then Arith(rt, op, left.value, right.value)
        else if ParserFacts.Comparison(op) then Compare(rt, op, left.value, right.value)
        else Error(UnknownBinary(op))
    case ETern(c, y, n) =>
      var cond := Eval(rt, c, env);
      if cond.Error? then cond
      else if ToBool(rt, cond.value) then Eval(rt, y, env) else Eval(rt, n, env)
  }

  datatype Outcomes = Values(vals: seq<Value>) | Failed(error: EvalError)

  /** Arguments left to right; the first error wins. */
  function EvalAll(rt: Runtime, es: seq<Expr>, env: Row): Outcomes
  {
    if es == [] then Values([])
    else match Eval(rt, es[0], env)
      case Error(error) => Failed(error)
      case Value(v) =>
        match EvalAll(rt, es[1..], env)
        case Failed(error) => Failed(error)
        case Values(vs) => Values([v] + vs)
  }

  /** The left operand alone decides: `false &&`, `true ||`, non-null `??`. */
  predicate ShortCircuits(rt: Runtime, op: string, left: Value)
  {
    (op == "&&" && !ToBool(rt, left)) || (op == "||" && ToBool(rt, left)) || (op == "??" && left != Null)
  }

  function ShortValue(rt: Runtime, op: string, left: Value): Value
  {
    if op == "&&" then Bool(false) else if op == "||" then Bool(true) else left
  }

  // ----- which columns an evaluation reads

  /** The columns read while evaluating `e`: only the operands reached. */
  function Touched(rt: Runtime, e: Expr, env: Row): set<string>
  {
    match e
    case EBind(name) => {name}
    case ECall(name, args) => if SupportedName(name) then TouchedAll(rt, args, env) else {}
    case EUnary(_, arg) => Touched(rt, arg, env)
    case EBin(op, l, r) =>
      var left := Eval(rt, l, env);
      if left.Error? || ShortCircuits(rt, op, left.value) then Touched(rt, l, env)
      else Touched(rt, l, env) + Touched(rt, r, env)
    case ETern(c, y, n) =>
      var cond := Eval(rt, c, env);
      if cond.Error? then Touched(rt, c, env)
      else Touched(rt, c, env) + Touched(rt, if ToBool(rt, cond.value) then y else n, env)
    case _ => {}
  }

  function TouchedAll(rt: Runtime, es: seq<Expr>, env: Row): set<string>
  {
    if es == [] then {}
    else if Eval(rt, es[0], env).Error? then Touched(rt, es[0], env)
    else Touched(rt, es[0], env) + TouchedAll(rt, es[1..], env)
  }

  ghost predicate AgreeOn(names: set<string>, env: Row, env': Row)
  {
    forall n :: n in names ==> Lookup(env, n) == Lookup(env', n)
  }

  lemma {:induction false} TouchedWithinBinds(rt: Runtime, e: Expr, env: Row)
    ensures Touched(rt, e, env) <= Binds(e)
    decreases e
  {
    match e {
      case ECall(_, args) => TouchedAllWithinBinds(rt, args, env);
      case EUnary(_, arg) => TouchedWithinBinds(rt, arg, env);
      case EBin(_, l, r) =>
        TouchedWithinBinds(rt, l, env);
        TouchedWithinBinds(rt, r, env);
      case ETern(c, y, n) =>
        TouchedWithinBinds(rt, c, env);
        TouchedWithinBinds(rt, y, env);
        TouchedWithinBinds(rt, n, env);
      case _ =>
    }
  }

  lemma {:induction false} TouchedAllWithinBinds(rt: Runtime, es: seq<Expr>, env: Row)
    ensures TouchedAll(rt, es, env) <= BindsOfAll(es)
    decreases es
  {
    if es != [] {
      TouchedWithinBinds(rt, es[0], env);
      TouchedAllWithinBinds(rt, es[1..], env);
    }
  }

  /** Rows that agree on the columns one evaluation reads evaluate alike: the
      operands skipped by a short-circuit cannot matter. */
  lemma {:induction false} EvalReadsOnlyTouched(rt: Runtime, e: Expr, env: Row, env': Row)
    requires AgreeOn(Touched(rt, e, env), env, env')
    ensures Eval(rt, e, env') == Eval(rt, e, env)
    decreases e
  {
    match e {
      case ECall(name, args) =>
        if SupportedName(name) { EvalAllReadsOnlyTouched(rt, args, env, env'); }
      case EUnary(_, arg) => EvalReadsOnlyTouched(rt, arg, env, env');
      case EBin(op, l, r) =>
        EvalReadsOnlyTouched(rt, l, env, env');
        var left := Eval(rt, l, env);
        if !left.Error? && !ShortCircuits(rt, op, left.value) {
          EvalReadsOnlyTouched(rt, r, env, env');
        }
      case ETern(c, y, n) =>
        EvalReadsOnlyTouched(rt, c, env, env');
        var cond := Eval(rt, c, env);
        if !cond.Error? {
          EvalReadsOnlyTouched(rt, if ToBool(rt, cond.value) then y else n, env, env');
        }
      case _ =>
    }
  }

  lemma {:induction false} EvalAllReadsOnlyTouched(rt: Runtime, es: seq<Expr>, env: Row, env': Row)
    requires AgreeOn(TouchedAll(rt, es, env), env, env')
    ensures EvalAll(rt, es, env') == EvalAll(rt, es, env)
    decreases es
  {
    if es != [] {
      EvalReadsOnlyTouched(rt, es[0], env, env');
      if !Eval(rt, es[0], env).Error? {
        EvalAllReadsOnlyTouched(rt, es[1..], env, env');
      }
    }
  }

  // ----- compiling

  predicate Supported(e: Expr)
  {
    match e
    case ECall(name, args) => SupportedName(name) && forall a :: a in args ==> Supported(a)
    case EUnary(_, arg) => Supported(arg)
    case EBin(_, l, r) => Supported(l) && Supported(r)
    case ETern(c, y, n) => Supported(c) && Supported(y) && Supported(n)
    case _ => true
  }

  /** `_validate_functions`: the first unsupported call, in reading order. */
  function FirstUnsupported(e: Expr): Option<string>
  {
    match e
    case ECall(name, args) => if SupportedName(name) then FirstUnsupportedOf(args) else Some(name)
    case EUnary(_, arg) => FirstUnsupported(arg)
    case EBin(_, l, r) =>
      var f := FirstUnsupported(l);
      if f.Some? then f else FirstUnsupported(r)
    case ETern(c, y, n) =>
      var f := FirstUnsupported(c);
      if f.Some? then f
      else
        var g := FirstUnsupported(y);
        if g.Some? then g else FirstUnsupported(n)
    case _ => None
  }

  function FirstUnsupportedOf(es: seq<Expr>): Option<string>
  {
    if es == [] then None
    else
      var f := FirstUnsupported(es[0]);
      if f.Some? then f else FirstUnsupportedOf(es[1..])
  }

  lemma {:induction false} ValidatedIsSupported(e: Expr)
    ensures FirstUnsupported(e).None? <==> Supported(e)
    decreases e
  {
    match e {
      case ECall(_, args) => ValidatedAllSupported(args);
      case EUnary(_, arg) => ValidatedIsSupported(arg);
      case EBin(_, l, r) =>
        ValidatedIsSupported(l);
        ValidatedIsSupported(r);
      case ETern(c, y, n) =>
        ValidatedIsSupported(c);
        ValidatedIsSupported(y);
        ValidatedIsSupported(n);
      case _ =>
    }
  }

  lemma {:induction false} ValidatedAllSupported(es: seq<Expr>)
    ensures FirstUnsupportedOf(es).None? <==> forall a :: a in es ==> Supported(a)
    decreases es
  {
    if es != [] {
      ValidatedIsSupported(es[0]);
      ValidatedAllSupported(es[1..]);
      assert es == [es[0]] + es[1..];
    }
  }

  datatype Compiled = Compiled(source: string, ast: Expr, references: seq<string>)

  predicate Blank(t: CharTable, s: string)
  {
    forall k :: 0 <= k < |s| ==> t.isSpace(s[k])
  }

  /** `compile_expression`, as a whole. */
  ghost function Compile(t: CharTable, expr: string): Result<Compiled>
  {
    if Blank(t, expr) then Fail(EmptyExpression)
    else
      var toks :- Lex(t, expr);
      LexTerminated(t, expr, 0);
      var ast :- Parser.Parse(t, toks);
      var bad := FirstUnsupported(ast);
      if bad.Some? then Fail(UnsupportedFunction(bad.value))
      else Ok(Compiled(expr, ast, Names.Listing(Binds(ast))))
  }

  method CompileExpression(t: CharTable, expr: string) returns (r: Result<Compiled>)
    ensures r == Compile(t, expr)
  {
    if Blank(t, expr) {
      return Fail(EmptyExpression);
    }
    var toks :- Tokenize(t, expr);
    LexTerminated(t, expr, 0);
    var ast :- ParserMachine.ParseTokens(t, toks);
    var bad := FirstUnsupported(ast);
    if bad.Some? {
      return Fail(UnsupportedFunction(bad.value));
    }
    var refs := Names.Sorted(Binds(ast));
    r := Ok(Compiled(expr, ast, refs));
  }

  // ----- the claims

  /** Tree and text scan agree: a compiled expression references exactly the
      names a quote-aware scan of its text finds. */
  lemma TwoReadersAgree(t: CharTable, expr: string)
    requires t.Valid() && Compile(t, expr).Ok?
    ensures Names.Elements(Compile(t, expr).value.references) == BindScan.RefNames(BindScan.Scan(t, expr))
    ensures BindScan.Scan(t, expr) == BindScan.TokenRefs(Lex(t, expr).value)
  {
    var toks := Lex(t, expr).value;
    LexTerminated(t, expr, 0);
    ParserFacts.ParseBinds(t, toks);
    BindScan.ScanIsBindTokens(t, expr, 0);
    BindScan.TokenRefNames(toks);
  }

  /** No internal error of the evaluator can be reached by `e`. */
  lemma {:induction false} EvalSafe(rt: Runtime, e: Expr, env: Row)
    requires ParserFacts.KnownOperators(e) && Supported(e)
    ensures Eval(rt, e, env).Error? ==> Eval(rt, e, env).error.Raised?
    decreases e
  {
    match e {
      case ECall(_, args) => EvalAllSafe(rt, args, env);
      case EUnary(_, arg) => EvalSafe(rt, arg, env);
      case EBin(_, l, r) =>
        EvalSafe(rt, l, env);
        EvalSafe(rt, r, env);
      case ETern(c, y, n) =>
        EvalSafe(rt, c, env);
        EvalSafe(rt, y, env);
        EvalSafe(rt, n, env);
      case _ =>
    }
  }

  lemma {:induction false} EvalAllSafe(rt: Runtime, es: seq<Expr>, env: Row)
    requires forall a :: a in es ==> ParserFacts.KnownOperators(a) && Supported(a)
    ensures EvalAll(rt, es, env).Failed? ==> EvalAll(rt, es, env).error.Raised?
    decreases es
  {
    if es != [] {
      EvalSafe(rt, es[0], env);
      EvalAllSafe(rt, es[1..], env);
    }
  }

  /** A compiled expression evaluates without internal errors, and its result
      is decided by the values of `references` alone. */
  lemma CompiledIsSafe(t: CharTable, rt: Runtime, expr: string, env: Row, env': Row)
    requires Compile(t, expr).Ok?
    requires AgreeOn(Names.Elements(Compile(t, expr).value.references), env, env')
    ensures var c := Compile(t, expr).value;
      && Eval(rt, c.ast, env') == Eval(rt, c.ast, env)
      && (Eval(rt, c.ast, env).Error? ==> Eval(rt, c.ast, env).error.Raised?)
  {
    var c := Compile(t, expr).value;
    LexTerminated(t, expr, 0);
    ParserFacts.ParseBinds(t, Lex(t, expr).value);
    ValidatedIsSupported(c.ast);
    EvalSafe(rt, c.ast, env);
    TouchedWithinBinds(rt, c.ast, env);
    EvalReadsOnlyTouched(rt, c.ast, env, env');
  }
}
