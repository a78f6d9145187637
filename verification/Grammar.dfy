/**
 The grammar of the expression language as a relation between token sequences
 and trees, written apart from the parser (src/r2g/expressions.py:206-331), and
 the proof that the parser accepts exactly the sequences the grammar derives.
 */
module Grammar {
  import opened Characters
  import opened ExpressionSyntax
  import opened Lexer
  import opened Parser

  /** The level an operator token binds at, from the loosest up, and its name in a tree. The
      choice `?:` is at level 0, NOT at 4, signs at 9, and what needs no operator at 10. */
  const OPERATORS: set<(nat, Token, string)> := {
    (1, NullCoal, "??"), (2, Or, "||"), (3, And, "&&"),
    (5, Eq, "=="), (5, Neq, "!="),
    (6, Lt, "<"), (6, Lte, "<="), (6, Gt, ">"), (6, Gte, ">="),
    (7, Plus, "+"), (7, Minus, "-"),
    (8, Star, "*"), (8, Slash, "/"), (8, Percent, "%")
  }

  // ----- the grammar

  /** The grammar derives the tokens `w` from `level`, with the tree `e`. */
  ghost predicate Derives(t: CharTable, level: nat, e: Expr, w: seq<Token>)
    requires level <= PRIMARY
    decreases |w|, PRIMARY - level, 2
  {
    || (level < PRIMARY && Derives(t, level + 1, e, w))
    || (level == TERNARY && IsTernary(t, e, w))
    || IsBinary(t, level, e, w)
    || (level == NOT && IsSigned(t, NOT, Not, "not", e, w))
    || (level == UNARY && IsSigned(t, UNARY, Minus, "-", e, w))
    || (level == UNARY && |w| > 1 && w[0] == Plus && Derives(t, UNARY, e, w[1..]))
    || (level == PRIMARY && (IsLeaf(e, w) || IsGroup(t, e, w) || IsCall(t, e, w)))
  }

  ghost predicate IsTernary(t: CharTable, e: Expr, w: seq<Token>)
    decreases |w|, PRIMARY, 1
  {
    e.ETern? && exists c, y, n ::
      && w == c + [QMark] + y + [Colon] + n
      && Derives(t, NULLCOAL, e.cond, c) && Derives(t, TERNARY, e.yes, y) && Derives(t, TERNARY, e.no, n)
  }

  /** Operators of one level associate to the left. */
  ghost predicate IsBinary(t: CharTable, level: nat, e: Expr, w: seq<Token>)
    requires level <= PRIMARY
    decreases |w|, PRIMARY - level, 1
  {
    level < PRIMARY && e.EBin? && exists l, op, r ::
      && w == l + [op] + r && (level, op, e.op) in OPERATORS
      && Derives(t, level, e.left, l) && Derives(t, level + 1, e.right, r)
  }

  ghost predicate IsSigned(t: CharTable, level: nat, sign: Token, op: string, e: Expr, w: seq<Token>)
    requires level <= PRIMARY
    decreases |w|, PRIMARY - level, 1
  {
    e.EUnary? && e.op == op && |w| > 1 && w[0] == sign && Derives(t, level, e.arg, w[1..])
  }

  predicate IsLeaf(e: Expr, w: seq<Token>)
  {
    match e
    case ENum(number) => w == [Num(number)]
    case EStr(text) => w == [Str(text)]
    case EBool(b) => w == [BoolLit(b)]
    case ENull => w == [NullLit]
    case EBind(name) => w == [Bind(name)]
    case _ => false
  }

  ghost predicate IsGroup(t: CharTable, e: Expr, w: seq<Token>)
    decreases |w|, 0, 1
  {
    exists inner :: w == [LParen] + inner + [RParen] && Derives(t, TERNARY, e, inner)
  }

  /** The function is named by the upper case of the name written. */
  ghost predicate IsCall(t: CharTable, e: Expr, w: seq<Token>)
    decreases |w|, 0, 1
  {
    e.ECall? && exists name, inner ::
      && w == [Ident(name), LParen] + inner + [RParen]
      && e.name == t.Upper(name) && IsArguments(t, e.args, inner)
  }

  ghost predicate IsArguments(t: CharTable, args: seq<Expr>, w: seq<Token>)
    decreases |w|, PRIMARY, 3
  {
    if args == [] then w == []
    else if |args| == 1 then Derives(t, TERNARY, args[0], w)
    else exists a, more ::
      && w == a + [Comma] + more
      && Derives(t, TERNARY, args[0], a) && IsArguments(t, args[1..], more)
  }

  // ----- what a phrase starts with

  /** A phrase is not empty, starts with no closing parenthesis, and with a sign or
      NOT only at a level that has one. */
  lemma {:induction false} HeadOf(t: CharTable, level: nat, e: Expr, w: seq<Token>)
    requires level <= PRIMARY && Derives(t, level, e, w)
    ensures w != [] && w[0] != RParen
    ensures w[0] == Not ==> level <= NOT
    ensures w[0] == Minus || w[0] == Plus ==> level <= UNARY
    decreases |w|, PRIMARY - level
  {
    if level < PRIMARY && Derives(t, level + 1, e, w) {
      HeadOf(t, level + 1, e, w);
    } else if level == TERNARY && IsTernary(t, e, w) {
      var c, y, n :| w == c + [QMark] + y + [Colon] + n && Derives(t, NULLCOAL, e.cond, c);
      HeadOf(t, NULLCOAL, e.cond, c);
    } else if IsBinary(t, level, e, w) {
      var l, op, r :| w == l + [op] + r && Derives(t, level, e.left, l);
      HeadOf(t, level, e.left, l);
    } else if level == PRIMARY {
      assert IsLeaf(e, w) || IsGroup(t, e, w) || IsCall(t, e, w);
    } else {
      assert level == NOT || level == UNARY;
    }
  }

  lemma ArgumentsHead(t: CharTable, args: seq<Expr>, w: seq<Token>)
    requires args != [] && IsArguments(t, args, w)
    ensures w != [] && w[0] != RParen
  {
    if |args| == 1 {
      HeadOf(t, TERNARY, args[0], w);
    } else {
      var a, more :| w == a + [Comma] + more && Derives(t, TERNARY, args[0], a);
      HeadOf(t, TERNARY, args[0], a);
    }
  }

  lemma OperatorsExact(level: nat, tok: Token, op: string)
    ensures (level, tok, op) in OPERATORS <==> OperatorAt(level, tok) == Some(op)
    ensures (level, tok, op) in OPERATORS ==> BinaryLevel(level) && op != "not"
  {
  }

  // ----- tokens in place

  /** Tokens without their columns. */
  function Tokens(toks: seq<Placed>): (r: seq<Token>)
    ensures |r| == |toks|
    ensures forall k :: 0 <= k < |r| ==> r[k] == toks[k].tok
  {
    seq(|toks|, k requires 0 <= k < |toks| => toks[k].tok)
  }

  lemma TokensAppend(a: seq<Placed>, b: seq<Placed>)
    ensures Tokens(a + b) == Tokens(a) + Tokens(b)
  {
  }

  /** The tokens `p` stand in `toks` from `i` on, and more follow. */
  ghost predicate Holds(toks: seq<Placed>, i: nat, p: seq<Token>)
  {
    i + |p| < |toks| && forall k :: 0 <= k < |p| ==> toks[i + k].tok == p[k]
  }

  lemma HoldsSplit(toks: seq<Placed>, i: nat, p: seq<Token>, q: seq<Token>)
    requires Holds(toks, i, p + q)
    ensures Holds(toks, i, p) && Holds(toks, i + |p|, q)
    ensures p != [] ==> toks[i].tok == p[0]
    ensures q != [] ==> toks[i + |p|].tok == q[0]
  {
    forall k | 0 <= k < |p| ensures toks[i + k].tok == p[k] {
      assert (p + q)[k] == p[k];
    }
    forall k | 0 <= k < |q| ensures toks[i + |p| + k].tok == q[k] {
      assert toks[i + (|p| + k)].tok == (p + q)[|p| + k] == q[k];
    }
    if p != [] { assert toks[i + 0].tok == p[0]; }
    if q != [] { assert toks[i + |p| + 0].tok == q[0]; }
  }

  lemma HeadHolds(toks: seq<Placed>, i: nat, w: seq<Token>)
    requires Holds(toks, i, w) && w != []
    ensures toks[i].tok == w[0] && Holds(toks, i + 1, w[1..])
  {
    assert w == [w[0]] + w[1..];
    HoldsSplit(toks, i, [w[0]], w[1..]);
  }

  lemma BinaryHolds(toks: seq<Placed>, i: nat, l: seq<Token>, op: Token, r: seq<Token>)
    requires Holds(toks, i, l + [op] + r)
    ensures Holds(toks, i, l) && toks[i + |l|].tok == op && Holds(toks, i + |l| + 1, r)
  {
    HoldsSplit(toks, i, l + [op], r);
    HoldsSplit(toks, i, l, [op]);
  }

  lemma TernaryHolds(toks: seq<Placed>, i: nat, c: seq<Token>, y: seq<Token>, n: seq<Token>)
    requires Holds(toks, i, c + [QMark] + y + [Colon] + n)
    ensures Holds(toks, i, c) && toks[i + |c|].tok == QMark
    ensures Holds(toks, i + |c| + 1, y) && toks[i + |c| + 1 + |y|].tok == Colon
    ensures Holds(toks, i + |c| + 1 + |y| + 1, n)
  {
    BinaryHolds(toks, i, c + [QMark] + y, Colon, n);
    BinaryHolds(toks, i, c, QMark, y);
  }

  lemma CallHolds(toks: seq<Placed>, i: nat, name: string, inner: seq<Token>)
    requires Holds(toks, i, [Ident(name), LParen] + inner + [RParen])
    ensures toks[i].tok == Ident(name) && toks[i + 1].tok == LParen
    ensures Holds(toks, i + 2, inner) && toks[i + 2 + |inner|].tok == RParen
    ensures inner != [] ==> toks[i + 2].tok == inner[0]
  {
    HoldsSplit(toks, i, [Ident(name), LParen] + inner, [RParen]);
    HoldsSplit(toks, i, [Ident(name), LParen], inner);
    assert toks[i + 1].tok == [Ident(name), LParen][1];
  }

  // ----- what the grammar derives is parsed

  /** The binary level a token is an operator of, 0 for the others. */
  function BindingLevel(tok: Token): (level: nat)
    ensures forall l: nat :: OperatorAt(l, tok).Some? <==> (l == level && level > 0)
  {
    match tok
    case NullCoal => NULLCOAL
    case Or => OR
    case And => AND
    case Eq => EQUALITY
    case Neq => EQUALITY
    case Lt => COMPARE
    case Lte => COMPARE
    case Gt => COMPARE
    case Gte => COMPARE
    case Plus => ADDITIVE
    case Minus => ADDITIVE
    case Star => TERM
    case Slash => TERM
    case Percent => TERM
    case _ => 0
  }

  /** A token that does not continue a phrase of `level`. */
  predicate MayFollow(level: nat, tok: Token)
  {
    BindingLevel(tok) <= level && (level == TERNARY ==> tok != QMark)
  }

  /** Parsing at `level` from `i` reads `e` up to `next`; a binary level then
      carries on with `e` as its left operand. */
  ghost predicate Reads(t: CharTable, level: nat, toks: seq<Placed>, i: nat, e: Expr, next: nat)
  {
    && InRange(toks, i) && InRange(toks, next) && level <= PRIMARY
    && ParseAt(t, level, toks, i) ==
       if BinaryLevel(level) then ParseLoop(t, level, toks, next, e) else Ok(Parsed(e, next))
  }

  /** What is read one level tighter is read here, if neither end continues it. */
  lemma ReadsLooser(t: CharTable, level: nat, toks: seq<Placed>, i: nat, e: Expr, next: nat)
    requires level < PRIMARY && Reads(t, level + 1, toks, i, e, next)
    requires MayFollow(level, toks[next].tok)
    requires level == NOT ==> toks[i].tok != Not
    requires level == UNARY ==> toks[i].tok != Minus && toks[i].tok != Plus
    ensures Reads(t, level, toks, i, e, next)
  {
    if BinaryLevel(level + 1) {
      assert OperatorAt(level + 1, toks[next].tok).None?;
      assert ParseLoop(t, level + 1, toks, next, e) == Ok(Parsed(e, next));
    }
    assert ParseAt(t, level + 1, toks, i) == Ok(Parsed(e, next));
  }

  /** A phrase that the next token does not continue is complete. */
  lemma ReadsWhole(t: CharTable, level: nat, toks: seq<Placed>, i: nat, e: Expr, next: nat)
    requires Reads(t, level, toks, i, e, next) && BindingLevel(toks[next].tok) < level
    ensures ParseAt(t, level, toks, i) == Ok(Parsed(e, next))
  {
    assert OperatorAt(level, toks[next].tok).None?;
  }

  lemma ReadsBinary(t: CharTable, level: nat, e: Expr, toks: seq<Placed>, i: nat, at: nat, next: nat)
    requires level < PRIMARY && e.EBin? && Reads(t, level, toks, i, e.left, at)
    requires (level, toks[at].tok, e.op) in OPERATORS
    requires Reads(t, level + 1, toks, at + 1, e.right, next) && MayFollow(level, toks[next].tok)
    ensures Reads(t, level, toks, i, e, next)
  {
    OperatorsExact(level, toks[at].tok, e.op);
    hide ParseAt, OPERATORS;
    ReadsWhole(t, level + 1, toks, at + 1, e.right, next);
  }

  lemma ReadsTernary(t: CharTable, e: Expr, toks: seq<Placed>, i: nat, q: nat, k: nat, next: nat)
    requires e.ETern? && Reads(t, NULLCOAL, toks, i, e.cond, q) && toks[q].tok == QMark
    requires Reads(t, TERNARY, toks, q + 1, e.yes, k) && toks[k].tok == Colon
    requires Reads(t, TERNARY, toks, k + 1, e.no, next)
    ensures Reads(t, TERNARY, toks, i, e, next)
  {
    ReadsWhole(t, NULLCOAL, toks, i, e.cond, q);
  }

  lemma ReadsSigned(t: CharTable, level: nat, sign: Token, toks: seq<Placed>, i: nat, arg: Expr, next: nat)
    requires InRange(toks, i) && toks[i].tok == sign && Reads(t, level, toks, i + 1, arg, next)
    requires level == NOT || level == UNARY
    ensures level == NOT && sign == Not ==> Reads(t, level, toks, i, EUnary("not", arg), next)
    ensures level == UNARY && sign == Minus ==> Reads(t, level, toks, i, EUnary("-", arg), next)
    ensures level == UNARY && sign == Plus ==> Reads(t, level, toks, i, arg, next)
  {
  }

  lemma ReadsGroup(t: CharTable, toks: seq<Placed>, i: nat, e: Expr, close: nat)
    requires InRange(toks, i) && toks[i].tok == LParen
    requires Reads(t, TERNARY, toks, i + 1, e, close) && toks[close].tok == RParen
    ensures Reads(t, PRIMARY, toks, i, e, close + 1)
  {
  }

  lemma ReadsCall(t: CharTable, toks: seq<Placed>, i: nat, name: string, args: seq<Expr>, close: nat)
    requires InRange(toks, i) && toks[i].tok == Ident(name) && toks[i + 1].tok == LParen
    requires InRange(toks, close) && toks[close].tok == RParen
    requires if args == [] then close == i + 2
             else toks[i + 2].tok != RParen && ParseArgs(t, toks, i + 2, []) == Ok(Parsed(args, close))
    ensures Reads(t, PRIMARY, toks, i, ECall(t.Upper(name), args), close + 1)
  {
    assert ParsePrimary(t, toks, i) == ParseCall(t, toks, i, name);
  }

  lemma ReadsLeaf(t: CharTable, toks: seq<Placed>, i: nat, e: Expr, w: seq<Token>)
    requires IsLeaf(e, w) && Holds(toks, i, w) && Terminated(toks)
    ensures Reads(t, PRIMARY, toks, i, e, i + |w|)
  {
    assert toks[i + 0].tok == w[0];
  }

  /** A phrase is read, when the token behind it does not continue it. */
  lemma {:induction false} ReadsPhrase(t: CharTable, level: nat, e: Expr, w: seq<Token>, toks: seq<Placed>, i: nat)
    requires level <= PRIMARY && Derives(t, level, e, w) && InRange(toks, i)
    requires Holds(toks, i, w) && MayFollow(level, toks[i + |w|].tok)
    ensures Reads(t, level, toks, i, e, i + |w|)
    decreases |w|, PRIMARY - level, 2
  {
    hide Reads, Holds, Terminated, BindingLevel, IsTernary, IsBinary, IsGroup, IsCall, IsLeaf, OPERATORS;
    if level < PRIMARY && Derives(t, level + 1, e, w) {
      HeadOf(t, level + 1, e, w);
      HeadHolds(toks, i, w);
      ReadsPhrase(t, level + 1, e, w, toks, i);
      ReadsLooser(t, level, toks, i, e, i + |w|);
    } else if level == TERNARY && IsTernary(t, e, w) {
      ReadsTernaryPhrase(t, e, w, toks, i);
    } else if IsBinary(t, level, e, w) {
      ReadsBinaryPhrase(t, level, e, w, toks, i);
    } else if level == PRIMARY {
      ReadsPrimaryPhrase(t, e, w, toks, i);
    } else {
      ReadsSignedPhrase(t, level, e, w, toks, i);
    }
  }

  lemma {:induction false} ReadsTernaryPhrase(t: CharTable, e: Expr, w: seq<Token>, toks: seq<Placed>, i: nat)
    requires IsTernary(t, e, w) && InRange(toks, i)
    requires Holds(toks, i, w) && MayFollow(TERNARY, toks[i + |w|].tok)
    ensures Reads(t, TERNARY, toks, i, e, i + |w|)
    decreases |w|, PRIMARY, 1
  {
    hide Reads, Holds, Terminated, Derives;
    var c, y, n :| w == c + [QMark] + y + [Colon] + n
      && Derives(t, NULLCOAL, e.cond, c) && Derives(t, TERNARY, e.yes, y) && Derives(t, TERNARY, e.no, n);
    TernaryHolds(toks, i, c, y, n);
    var q, k := i + |c|, i + |c| + 1 + |y|;
    ReadsPhrase(t, NULLCOAL, e.cond, c, toks, i);
    ReadsPhrase(t, TERNARY, e.yes, y, toks, q + 1);
    ReadsPhrase(t, TERNARY, e.no, n, toks, k + 1);
    ReadsTernary(t, e, toks, i, q, k, i + |w|);
  }

  lemma {:induction false} ReadsBinaryPhrase(
      t: CharTable, level: nat, e: Expr, w: seq<Token>, toks: seq<Placed>, i: nat)
    requires level <= PRIMARY && IsBinary(t, level, e, w) && InRange(toks, i)
    requires Holds(toks, i, w) && MayFollow(level, toks[i + |w|].tok)
    ensures Reads(t, level, toks, i, e, i + |w|)
    decreases |w|, PRIMARY - level, 1
  {
    hide Reads, Holds, Terminated, Derives, OPERATORS;
    var l, op, r :| w == l + [op] + r && (level, op, e.op) in OPERATORS
      && Derives(t, level, e.left, l) && Derives(t, level + 1, e.right, r);
    BinaryHolds(toks, i, l, op, r);
    OperatorsExact(level, op, e.op);
    ReadsPhrase(t, level, e.left, l, toks, i);
    ReadsPhrase(t, level + 1, e.right, r, toks, i + |l| + 1);
    ReadsBinary(t, level, e, toks, i, i + |l|, i + |w|);
  }

  lemma {:induction false} ReadsSignedPhrase(
      t: CharTable, level: nat, e: Expr, w: seq<Token>, toks: seq<Placed>, i: nat)
    requires level == NOT || level == UNARY
    requires || (level == NOT && IsSigned(t, NOT, Not, "not", e, w))
             || (level == UNARY && IsSigned(t, UNARY, Minus, "-", e, w))
             || (level == UNARY && |w| > 1 && w[0] == Plus && Derives(t, UNARY, e, w[1..]))
    requires InRange(toks, i) && Holds(toks, i, w) && MayFollow(level, toks[i + |w|].tok)
    ensures Reads(t, level, toks, i, e, i + |w|)
    decreases |w|, PRIMARY - level, 1
  {
    hide Reads, Holds, Terminated, Derives;
    HeadHolds(toks, i, w);
    var arg := if w[0] == Plus then e else e.arg;
    ReadsPhrase(t, level, arg, w[1..], toks, i + 1);
    ReadsSigned(t, level, w[0], toks, i, arg, i + |w|);
  }

  lemma {:induction false} ReadsPrimaryPhrase(t: CharTable, e: Expr, w: seq<Token>, toks: seq<Placed>, i: nat)
    requires IsLeaf(e, w) || IsGroup(t, e, w) || IsCall(t, e, w)
    requires InRange(toks, i) && Holds(toks, i, w)
    ensures Reads(t, PRIMARY, toks, i, e, i + |w|)
    decreases |w|, 0, 1
  {
    hide Reads, Holds, Terminated, Derives, IsLeaf, IsArguments;
    if IsLeaf(e, w) {
      ReadsLeaf(t, toks, i, e, w);
    } else if IsGroup(t, e, w) {
      var inner :| w == [LParen] + inner + [RParen] && Derives(t, TERNARY, e, inner);
      HoldsSplit(toks, i, [LParen] + inner, [RParen]);
      HoldsSplit(toks, i, [LParen], inner);
      ReadsPhrase(t, TERNARY, e, inner, toks, i + 1);
      ReadsGroup(t, toks, i, e, i + 1 + |inner|);
    } else {
      ReadsCallPhrase(t, e, w, toks, i);
    }
  }

  lemma {:induction false} ReadsCallPhrase(t: CharTable, e: Expr, w: seq<Token>, toks: seq<Placed>, i: nat)
    requires IsCall(t, e, w) && InRange(toks, i) && Holds(toks, i, w)
    ensures Reads(t, PRIMARY, toks, i, e, i + |w|)
    decreases |w|, 0, 0
  {
    hide Reads, Holds, Terminated, Derives, IsArguments, ParseAt, ParseArgs;
    var name, inner :| w == [Ident(name), LParen] + inner + [RParen]
      && e.name == t.Upper(name) && IsArguments(t, e.args, inner);
    CallHolds(toks, i, name, inner);
    NoArguments(t, e.args, inner);
    if e.args != [] {
      ArgumentsHead(t, e.args, inner);
      ReadsArguments(t, e.args, inner, toks, i + 2, []);
      assert [] + e.args == e.args;
    }
    ReadsCall(t, toks, i, name, e.args, i + 2 + |inner|);
  }

  lemma NoArguments(t: CharTable, args: seq<Expr>, w: seq<Token>)
    requires IsArguments(t, args, w)
    ensures args == [] ==> w == []
  {
  }

  lemma {:induction false} ReadsArguments(
      t: CharTable, args: seq<Expr>, w: seq<Token>, toks: seq<Placed>, i: nat, before: seq<Expr>)
    requires args != [] && IsArguments(t, args, w) && InRange(toks, i)
    requires Holds(toks, i, w) && toks[i + |w|].tok == RParen
    ensures ParseArgs(t, toks, i, before) == Ok(Parsed(before + args, i + |w|))
    decreases |w|, PRIMARY, 3
  {
    hide Derives, Terminated, ParseAt, ParseArgs, Holds, Reads;
    if |args| == 1 {
      ReadsPhrase(t, TERNARY, args[0], w, toks, i);
      ReadsLast(t, toks, i, before, args[0], i + |w|);
      assert args == [args[0]];
    } else {
      var a, more :| w == a + [Comma] + more
        && Derives(t, TERNARY, args[0], a) && IsArguments(t, args[1..], more);
      BinaryHolds(toks, i, a, Comma, more);
      ReadsPhrase(t, TERNARY, args[0], a, toks, i);
      ReadsArguments(t, args[1..], more, toks, i + |a| + 1, before + [args[0]]);
      ReadsNext(t, toks, i, before, args[0], i + |a|);
      assert before + [args[0]] + args[1..] == before + args;
    }
  }

  lemma ReadsLast(t: CharTable, toks: seq<Placed>, i: nat, before: seq<Expr>, arg: Expr, next: nat)
    requires Reads(t, TERNARY, toks, i, arg, next) && toks[next].tok != Comma
    ensures ParseArgs(t, toks, i, before) == Ok(Parsed(before + [arg], next))
  {
    hide ParseAt;
  }

  lemma ReadsNext(t: CharTable, toks: seq<Placed>, i: nat, before: seq<Expr>, arg: Expr, next: nat)
    requires Reads(t, TERNARY, toks, i, arg, next) && toks[next].tok == Comma && next + 1 < |toks|
    ensures ParseArgs(t, toks, i, before) == ParseArgs(t, toks, next + 1, before + [arg])
  {
    hide ParseAt;
  }

  // ----- what is parsed the grammar derives

  /** The tokens from `i` up to `j`. */
  function Between(toks: seq<Placed>, i: nat, j: nat): (w: seq<Token>)
    requires i <= j <= |toks|
    ensures |w| == j - i
    ensures forall k :: i <= k < j ==> w[k - i] == toks[k].tok
  {
    Tokens(toks)[i..j]
  }

  ghost predicate DerivesAt(t: CharTable, level: nat, e: Expr, toks: seq<Placed>, i: nat, j: nat)
  {
    level <= PRIMARY && i <= j <= |toks| && Derives(t, level, e, Between(toks, i, j))
  }

  lemma BetweenJoin(toks: seq<Placed>, i: nat, j: nat, k: nat)
    requires i <= j < k <= |toks|
    ensures Between(toks, i, k) == Between(toks, i, j) + [toks[j].tok] + Between(toks, j + 1, k)
  {
  }

  lemma LooserDerived(t: CharTable, level: nat, e: Expr, toks: seq<Placed>, i: nat, j: nat)
    requires level < PRIMARY && DerivesAt(t, level + 1, e, toks, i, j)
    ensures DerivesAt(t, level, e, toks, i, j)
  {
  }

  lemma TernaryDerived(t: CharTable, e: Expr, toks: seq<Placed>, i: nat, q: nat, k: nat, j: nat)
    requires e.ETern? && DerivesAt(t, NULLCOAL, e.cond, toks, i, q) && q < |toks| && toks[q].tok == QMark
    requires DerivesAt(t, TERNARY, e.yes, toks, q + 1, k) && k < |toks| && toks[k].tok == Colon
    requires DerivesAt(t, TERNARY, e.no, toks, k + 1, j)
    ensures DerivesAt(t, TERNARY, e, toks, i, j)
  {
    BetweenJoin(toks, i, q, k);
    BetweenJoin(toks, i, k, j);
    hide Between;
    var c, y, n := Between(toks, i, q), Between(toks, q + 1, k), Between(toks, k + 1, j);
    assert Between(toks, i, j) == c + [QMark] + y + [Colon] + n;
    assert IsTernary(t, e, Between(toks, i, j));
  }

  lemma BinaryDerived(t: CharTable, level: nat, e: Expr, toks: seq<Placed>, i: nat, at: nat, j: nat)
    requires level < PRIMARY && e.EBin? && DerivesAt(t, level, e.left, toks, i, at)
    requires at < |toks| && OperatorAt(level, toks[at].tok) == Some(e.op)
    requires DerivesAt(t, level + 1, e.right, toks, at + 1, j)
    ensures DerivesAt(t, level, e, toks, i, j)
  {
    OperatorsExact(level, toks[at].tok, e.op);
    BetweenJoin(toks, i, at, j);
    hide Between, OPERATORS, OperatorAt;
    var l, r := Between(toks, i, at), Between(toks, at + 1, j);
    assert Between(toks, i, j) == l + [toks[at].tok] + r;
    assert IsBinary(t, level, e, Between(toks, i, j));
  }

  lemma SignedDerived(t: CharTable, level: nat, arg: Expr, toks: seq<Placed>, i: nat, j: nat)
    requires i < |toks| && DerivesAt(t, level, arg, toks, i + 1, j) && i + 1 < j
    ensures level == NOT && toks[i].tok == Not ==> DerivesAt(t, NOT, EUnary("not", arg), toks, i, j)
    ensures level == UNARY && toks[i].tok == Minus ==> DerivesAt(t, UNARY, EUnary("-", arg), toks, i, j)
    ensures level == UNARY && toks[i].tok == Plus ==> DerivesAt(t, UNARY, arg, toks, i, j)
  {
    var w := Between(toks, i, j);
    assert w[1..] == Between(toks, i + 1, j) && w[0] == toks[i].tok;
    hide Between;
    assert w[0] == Not && level == NOT ==> IsSigned(t, NOT, Not, "not", EUnary("not", arg), w);
    assert w[0] == Minus && level == UNARY ==> IsSigned(t, UNARY, Minus, "-", EUnary("-", arg), w);
  }

  lemma GroupDerived(t: CharTable, e: Expr, toks: seq<Placed>, i: nat, j: nat)
    requires i < |toks| && toks[i].tok == LParen && DerivesAt(t, TERNARY, e, toks, i + 1, j)
    requires j < |toks| && toks[j].tok == RParen
    ensures DerivesAt(t, PRIMARY, e, toks, i, j + 1)
  {
    var inner := Between(toks, i + 1, j);
    assert Between(toks, i, j + 1) == [LParen] + inner + [RParen];
    hide Between;
    assert IsGroup(t, e, Between(toks, i, j + 1));
  }

  lemma CallDerived(t: CharTable, name: string, args: seq<Expr>, toks: seq<Placed>, i: nat, j: nat)
    requires i + 2 <= j < |toks| && toks[i].tok == Ident(name) && toks[i + 1].tok == LParen && toks[j].tok == RParen
    requires IsArguments(t, args, Between(toks, i + 2, j))
    ensures DerivesAt(t, PRIMARY, ECall(t.Upper(name), args), toks, i, j + 1)
  {
    var e, inner := ECall(t.Upper(name), args), Between(toks, i + 2, j);
    assert Between(toks, i, j + 1) == [Ident(name), LParen] + inner + [RParen];
    hide Between, IsArguments;
    assert e.name == t.Upper(name) && e.args == args;
    assert IsCall(t, e, Between(toks, i, j + 1));
  }

  lemma LeafDerived(t: CharTable, e: Expr, toks: seq<Placed>, i: nat)
    requires i < |toks| && IsLeaf(e, [toks[i].tok])
    ensures DerivesAt(t, PRIMARY, e, toks, i, i + 1)
  {
    assert Between(toks, i, i + 1) == [toks[i].tok];
  }

  /** What is parsed at a level is a phrase of that level. */
  lemma {:induction false} ParsedDerives(t: CharTable, level: nat, toks: seq<Placed>, i: nat)
    requires InRange(toks, i) && level <= PRIMARY
    ensures var r := ParseAt(t, level, toks, i);
      r.Ok? ==> DerivesAt(t, level, r.value.node, toks, i, r.value.next)
    decreases |toks| - i, 20 - level, 1
  {
    hide DerivesAt, Terminated, ParseCall;
    if ParseAt(t, level, toks, i).Ok? {
      if level == TERNARY {
        ParsedTernary(t, toks, i);
      } else if level == NOT || level == UNARY {
        ParsedSigned(t, level, toks, i);
      } else if level == PRIMARY {
        ParsedPrimary(t, toks, i);
      } else {
        ParsedDerives(t, level + 1, toks, i);
        var left := ParseAt(t, level + 1, toks, i).value;
        LooserDerived(t, level, left.node, toks, i, left.next);
        ParsedLoop(t, level, toks, i, left.next, left.node);
      }
    }
  }

  lemma {:induction false} ParsedTernary(t: CharTable, toks: seq<Placed>, i: nat)
    requires InRange(toks, i) && ParseAt(t, TERNARY, toks, i).Ok?
    ensures var r := ParseAt(t, TERNARY, toks, i).value; DerivesAt(t, TERNARY, r.node, toks, i, r.next)
    decreases |toks| - i, 20, 0
  {
    hide DerivesAt, Terminated, ParseAt;
    var chosen, cond, yes, no := TernaryParse(t, toks, i);
    ParsedDerives(t, NULLCOAL, toks, i);
    if chosen {
      ParsedDerives(t, TERNARY, toks, cond.next + 1);
      ParsedDerives(t, TERNARY, toks, yes.next + 1);
      TernaryDerived(t, ETern(cond.node, yes.node, no.node), toks, i, cond.next, yes.next, no.next);
    } else {
      LooserDerived(t, TERNARY, cond.node, toks, i, cond.next);
    }
  }

  /** What a successful parse at the loosest level has read: a choice, or its condition alone. */
  lemma TernaryParse(t: CharTable, toks: seq<Placed>, i: nat)
    returns (chosen: bool, cond: Parsed<Expr>, yes: Parsed<Expr>, no: Parsed<Expr>)
    requires InRange(toks, i) && ParseAt(t, TERNARY, toks, i).Ok?
    ensures ParseAt(t, NULLCOAL, toks, i) == Ok(cond) && i < cond.next < |toks|
    ensures !chosen ==> ParseAt(t, TERNARY, toks, i) == Ok(cond)
    ensures chosen ==>
      && toks[cond.next].tok == QMark && cond.next + 1 < yes.next < |toks|
      && ParseAt(t, TERNARY, toks, cond.next + 1) == Ok(yes)
      && toks[yes.next].tok == Colon && yes.next + 1 < no.next < |toks|
      && ParseAt(t, TERNARY, toks, yes.next + 1) == Ok(no)
      && ParseAt(t, TERNARY, toks, i) == Ok(Parsed(ETern(cond.node, yes.node, no.node), no.next))
  {
    hide ParseLoop, ParsePrimary, ParseCall, ParseArgs, OperatorAt;
    cond := ParseAt(t, NULLCOAL, toks, i).value;
    chosen, yes, no := toks[cond.next].tok == QMark, cond, cond;
    if chosen {
      yes := ParseAt(t, TERNARY, toks, cond.next + 1).value;
      no := ParseAt(t, TERNARY, toks, yes.next + 1).value;
    }
  }

  lemma {:induction false} ParsedLoop(t: CharTable, level: nat, toks: seq<Placed>, i: nat, at: nat, left: Expr)
    requires InRange(toks, at) && i < at && level < PRIMARY && DerivesAt(t, level, left, toks, i, at)
    ensures var r := ParseLoop(t, level, toks, at, left);
      r.Ok? ==> DerivesAt(t, level, r.value.node, toks, i, r.value.next)
    decreases |toks| - at, 20 - level
  {
    hide DerivesAt, ParseAt;
    var op := OperatorAt(level, toks[at].tok);
    if op.Some? && ParseAt(t, level + 1, toks, at + 1).Ok? {
      ParsedDerives(t, level + 1, toks, at + 1);
      var right := ParseAt(t, level + 1, toks, at + 1).value;
      BinaryDerived(t, level, EBin(op.value, left, right.node), toks, i, at, right.next);
      ParsedLoop(t, level, toks, i, right.next, EBin(op.value, left, right.node));
    }
  }

  lemma {:induction false} ParsedSigned(t: CharTable, level: nat, toks: seq<Placed>, i: nat)
    requires InRange(toks, i) && (level == NOT || level == UNARY) && ParseAt(t, level, toks, i).Ok?
    ensures var r := ParseAt(t, level, toks, i).value; DerivesAt(t, level, r.node, toks, i, r.next)
    decreases |toks| - i, 20 - level, 0
  {
    hide DerivesAt, Terminated, ParsePrimary;
    if (level == NOT && toks[i].tok == Not) || (level == UNARY && toks[i].tok in [Minus, Plus]) {
      ParsedDerives(t, level, toks, i + 1);
      var arg := ParseAt(t, level, toks, i + 1).value;
      SignedDerived(t, level, arg.node, toks, i, arg.next);
    } else {
      ParsedDerives(t, level + 1, toks, i);
      LooserDerived(t, level, ParseAt(t, level, toks, i).value.node, toks, i, ParseAt(t, level, toks, i).value.next);
    }
  }

  lemma {:induction false} ParsedPrimary(t: CharTable, toks: seq<Placed>, i: nat)
    requires InRange(toks, i) && ParsePrimary(t, toks, i).Ok?
    ensures var r := ParsePrimary(t, toks, i).value; DerivesAt(t, PRIMARY, r.node, toks, i, r.next)
    decreases |toks| - i, 1
  {
    hide DerivesAt, Terminated, ParseAt, ParseCall;
    var tok, r := toks[i].tok, ParsePrimary(t, toks, i).value;
    if tok == LParen {
      ParsedDerives(t, TERNARY, toks, i + 1);
      GroupDerived(t, r.node, toks, i, r.next - 1);
    } else if tok.Ident? {
      ParsedCall(t, toks, i, tok.name);
    } else {
      LeafDerived(t, r.node, toks, i);
    }
  }

  lemma {:induction false} ParsedCall(t: CharTable, toks: seq<Placed>, i: nat, name: string)
    requires InRange(toks, i) && toks[i].tok == Ident(name) && ParseCall(t, toks, i, name).Ok?
    ensures var r := ParseCall(t, toks, i, name).value; DerivesAt(t, PRIMARY, r.node, toks, i, r.next)
    decreases |toks| - i, 0
  {
    hide DerivesAt, Terminated, ParseArgs;
    var r := ParseCall(t, toks, i, name).value;
    if toks[i + 2].tok == RParen {
      assert Between(toks, i + 2, i + 2) == [];
    } else {
      ParsedArguments(t, toks, i + 2, []);
    }
    CallDerived(t, name, r.node.args, toks, i, r.next - 1);
  }

  lemma {:induction false} ParsedArguments(t: CharTable, toks: seq<Placed>, i: nat, before: seq<Expr>)
    requires InRange(toks, i)
    ensures var r := ParseArgs(t, toks, i, before);
      r.Ok? ==> before < r.value.node && IsArguments(t, r.value.node[|before|..], Between(toks, i, r.value.next))
    decreases |toks| - i, 21
  {
    hide Terminated, ParseAt, Derives, Between;
    var r := ParseArgs(t, toks, i, before);
    if r.Ok? {
      ParsedDerives(t, TERNARY, toks, i);
      var arg := ParseAt(t, TERNARY, toks, i).value;
      if toks[arg.next].tok == Comma {
        ParsedArguments(t, toks, arg.next + 1, before + [arg.node]);
        var args := r.value.node[|before|..];
        assert args == [arg.node] + args[1..] && args[1..] == r.value.node[|before| + 1..];
        BetweenJoin(toks, i, arg.next, r.value.next);
      } else {
        assert r.value.node[|before|..] == [arg.node];
      }
    }
  }

  // ----- the parser is the grammar

  /** The parser accepts a token sequence with a tree exactly when the grammar derives it. */
  lemma ParseExactly(t: CharTable, toks: seq<Placed>, e: Expr)
    requires Terminated(toks)
    ensures Parse(t, toks) == Ok(e) <==> Derives(t, TERNARY, e, Between(toks, 0, |toks| - 1))
  {
    var w := Between(toks, 0, |toks| - 1);
    if Derives(t, TERNARY, e, w) {
      assert Holds(toks, 0, w);
      hide ParseAt, Derives;
      ReadsPhrase(t, TERNARY, e, w, toks, 0);
    }
    if Parse(t, toks) == Ok(e) {
      hide ParseAt, Derives;
      ParsedDerives(t, TERNARY, toks, 0);
    }
  }
}
