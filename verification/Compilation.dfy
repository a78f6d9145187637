/**
 What a text compiles to, told from the grammar and the spellings alone
 (src/r2g/expressions.py:622-665).
 */
module Compilation {
  import Names
  import opened Characters
  import opened ExpressionSyntax
  import opened Evaluator
  import Lexer
  import Parser
  import opened Reading
  import Semantics

  /** The names called in a tree, each call before the calls in its arguments. */
  function CallNames(e: Expr): seq<string>
  {
    match e
    case ECall(name, args) => [name] + CallNamesOf(args)
    case EUnary(_, arg) => CallNames(arg)
    case EBin(_, l, r) => CallNames(l) + CallNames(r)
    case ETern(c, y, n) => CallNames(c) + CallNames(y) + CallNames(n)
    case _ => []
  }

  function CallNamesOf(es: seq<Expr>): seq<string>
  {
    if es == [] then [] else CallNames(es[0]) + CallNamesOf(es[1..])
  }

  /** The first name of `names` that is no function of the library, if any. */
  ghost predicate FirstUnknown(names: seq<string>, bad: Option<string>)
  {
    match bad
    case None => forall n :: n in names ==> n in Semantics.FUNCTIONS
    case Some(name) => exists k ::
      && 0 <= k < |names| && names[k] == name && name !in Semantics.FUNCTIONS
      && forall j :: 0 <= j < k ==> names[j] in Semantics.FUNCTIONS
  }

  lemma FirstUnknownJoin(a: seq<string>, b: seq<string>, f: Option<string>, g: Option<string>)
    requires FirstUnknown(a, f) && FirstUnknown(b, g)
    ensures FirstUnknown(a + b, if f.Some? then f else g)
  {
    hide Semantics.FUNCTIONS;
    if f.Some? {
      var k :| 0 <= k < |a| && a[k] == f.value && f.value !in Semantics.FUNCTIONS
        && forall j :: 0 <= j < k ==> a[j] in Semantics.FUNCTIONS;
      assert (a + b)[k] == f.value;
    } else if g.Some? {
      var k :| 0 <= k < |b| && b[k] == g.value && g.value !in Semantics.FUNCTIONS
        && forall j :: 0 <= j < k ==> b[j] in Semantics.FUNCTIONS;
      assert (a + b)[|a| + k] == g.value;
      forall j | 0 <= j < |a| + k ensures (a + b)[j] in Semantics.FUNCTIONS {
        if j < |a| { assert a[j] in a; }
      }
    }
  }

  lemma CallFirst(name: string, rest: seq<string>, g: Option<string>)
    requires FirstUnknown(rest, g)
    ensures FirstUnknown([name] + rest, if SupportedName(name) then g else Some(name))
  {
    Semantics.FunctionMeans(name);
    hide Semantics.FUNCTIONS, SupportedName;
    if !SupportedName(name) {
      assert ([name] + rest)[0] == name;
    } else {
      assert FirstUnknown([name], None);
      FirstUnknownJoin([name], rest, None, g);
    }
  }

  /** Validation names the first called name that is no library function. */
  lemma {:induction false} ValidatedFirst(e: Expr)
    ensures FirstUnknown(CallNames(e), FirstUnsupported(e))
    decreases e
  {
    hide FirstUnknown, SupportedName;
    match e {
      case ECall(name, args) =>
        ValidatedFirstOf(args);
        CallFirst(name, CallNamesOf(args), FirstUnsupportedOf(args));
      case EUnary(_, arg) => ValidatedFirst(arg);
      case EBin(_, l, r) =>
        ValidatedFirst(l);
        ValidatedFirst(r);
        FirstUnknownJoin(CallNames(l), CallNames(r), FirstUnsupported(l), FirstUnsupported(r));
      case ETern(c, y, n) =>
        ValidatedFirst(c);
        ValidatedFirst(y);
        ValidatedFirst(n);
        var cy := if FirstUnsupported(c).Some? then FirstUnsupported(c) else FirstUnsupported(y);
        FirstUnknownJoin(CallNames(c), CallNames(y), FirstUnsupported(c), FirstUnsupported(y));
        FirstUnknownJoin(CallNames(c) + CallNames(y), CallNames(n), cy, FirstUnsupported(n));
      case _ => NothingCalled();
    }
  }

  lemma NothingCalled()
    ensures FirstUnknown([], None)
  {
  }

  lemma {:induction false} ValidatedFirstOf(es: seq<Expr>)
    ensures FirstUnknown(CallNamesOf(es), FirstUnsupportedOf(es))
    decreases es
  {
    hide FirstUnknown;
    if es == [] {
      NothingCalled();
    } else {
      ValidatedFirst(es[0]);
      ValidatedFirstOf(es[1..]);
      FirstUnknownJoin(CallNames(es[0]), CallNamesOf(es[1..]), FirstUnsupported(es[0]), FirstUnsupportedOf(es[1..]));
    }
  }

  lemma OneFirst(names: seq<string>, f: Option<string>, g: Option<string>)
    requires FirstUnknown(names, f) && FirstUnknown(names, g)
    ensures f == g
  {
    hide Semantics.FUNCTIONS;
  }

  /** A text of spaces writes no tree. */
  lemma BlankWritesNothing(t: CharTable, s: string, e: Expr)
    requires t.Valid() && Blank(t, s)
    ensures !Writes(t, s, e)
  {
    ReadExactly(t, s, e);
    LexBlank(t, s, 0);
  }

  lemma {:induction false} LexBlank(t: CharTable, s: string, i: nat)
    requires i <= |s| && Blank(t, s)
    ensures Lexer.LexFrom(t, s, i) == ExpressionSyntax.Ok([Placed(Eof, |s|)])
    decreases |s| - i
  {
    if i < |s| {
      LexBlank(t, s, i + 1);
    }
  }

  /** The outcome of a text that writes a tree. */
  lemma CompileWritten(t: CharTable, s: string, e: Expr)
    requires t.Valid() && Writes(t, s, e)
    ensures Compile(t, s) ==
      if FirstUnsupported(e).Some? then Fail(UnsupportedFunction(FirstUnsupported(e).value))
      else ExpressionSyntax.Ok(Compiled(s, e, Names.Listing(Binds(e))))
  {
    hide Writes, FirstUnsupported, Parser.Parse, Lexer.Lex;
    ReadExactly(t, s, e);
    if Blank(t, s) {
      BlankWritesNothing(t, s, e);
    }
  }

  /** A text that compiles, or is refused for a function it calls, writes a tree. */
  lemma CompiledIsWritten(t: CharTable, s: string) returns (e: Expr)
    requires t.Valid()
    requires var r := Compile(t, s); r.Ok? || r.error.UnsupportedFunction?
    ensures Writes(t, s, e)
  {
    hide Writes, FirstUnsupported;
    Lexer.LexTerminated(t, s, 0);
    e := Read(t, s).value;
    ReadExactly(t, s, e);
  }

  /** A text compiles exactly when it writes a tree that calls library functions only,
      and then to that tree and its sorted references. */
  lemma CompiledExactly(t: CharTable, s: string, c: Compiled)
    requires t.Valid()
    ensures Compile(t, s) == ExpressionSyntax.Ok(c) <==>
      && c.source == s && Writes(t, s, c.ast)
      && (forall name :: name in CallNames(c.ast) ==> name in Semantics.FUNCTIONS)
      && c.references == Names.Listing(Binds(c.ast))
  {
    hide Writes, Compile, FirstUnsupported, CallNames, Semantics.FUNCTIONS;
    ValidatedFirst(c.ast);
    if Writes(t, s, c.ast) {
      CompileWritten(t, s, c.ast);
      NoneUnknown(CallNames(c.ast), FirstUnsupported(c.ast));
    }
    if Compile(t, s) == ExpressionSyntax.Ok(c) {
      var e := CompiledIsWritten(t, s);
      CompileWritten(t, s, e);
    }
  }

  lemma NoneUnknown(names: seq<string>, bad: Option<string>)
    requires FirstUnknown(names, bad)
    ensures bad.None? <==> forall name :: name in names ==> name in Semantics.FUNCTIONS
  {
    hide Semantics.FUNCTIONS;
  }

  /** A function is refused exactly when it is the first one called, in a tree the text
      writes, that is no library function. */
  lemma UnsupportedExactly(t: CharTable, s: string, name: string)
    requires t.Valid()
    ensures Compile(t, s) == Fail(UnsupportedFunction(name)) <==>
      exists e :: Writes(t, s, e) && FirstUnknown(CallNames(e), Some(name))
  {
    hide Writes, Compile, FirstUnsupported, CallNames, FirstUnknown;
    if Compile(t, s) == Fail(UnsupportedFunction(name)) {
      var e := CompiledIsWritten(t, s);
      CompileWritten(t, s, e);
      ValidatedFirst(e);
    }
    if e :| Writes(t, s, e) && FirstUnknown(CallNames(e), Some(name)) {
      CompileWritten(t, s, e);
      ValidatedFirst(e);
      OneFirst(CallNames(e), FirstUnsupported(e), Some(name));
    }
  }
}
