/**
 Printed trees as text, and the round trip through the tokenizer and parser.
 */
module PrinterText {
  import opened Characters
  import Decimals
  import opened ExpressionSyntax
  import opened Grammar
  import opened Lexer
  import opened Parser
  import opened Printer
  import opened Reading
  import opened Spelling

  // ----- writing tokens

  function Escape(c: char): string
  {
    match c
    case '\n' => "\\n"
    case '\t' => "\\t"
    case '\r' => "\\r"
    case '\\' => "\\\\"
    case '"' => "\\\""
    case _ => [c]
  }

  function EscapeAll(text: string): string
  {
    if text == [] then [] else Escape(text[0]) + EscapeAll(text[1..])
  }

  function Render(tok: Token): string
  {
    match tok
    case LParen => "(" case RParen => ")" case Comma => ","
    case Plus => "+" case Minus => "-" case Star => "*" case Slash => "/" case Percent => "%"
    case QMark => "?" case Colon => ":"
    case Eq => "==" case Neq => "!=" case Lt => "<" case Lte => "<=" case Gt => ">" case Gte => ">="
    case And => "&&" case Or => "||" case Not => "not" case NullCoal => "??"
    case BoolLit(b) => if b then "true" else "false"
    case NullLit => "null"
    case Num(number) => if number.Int? then Decimals.NatText(number.value) else number.text
    case Str(text) => "\"" + EscapeAll(text) + "\""
    case Bind(name) => "@" + name
    case Ident(name) => name
    case Eof => ""
  }

  /** Tokens separated by spaces. */
  function RenderAll(toks: seq<Token>): string
  {
    if toks == [] then [] else Render(toks[0]) + " " + RenderAll(toks[1..])
  }

  /** The text of an expression. */
  function PrintText(e: Expr): string
  {
    RenderAll(Print(e, TERNARY))
  }

  /** Tokens that text can spell. */
  predicate Spellable(t: CharTable, tok: Token)
  {
    match tok
    case Num(number) => number.Int? || DecimalText(t, number.text)
    case Bind(name) => t.Word(name)
    case Ident(name) => t.Word(name) && !Keyword(t.Lower(name))
    case Eof => false
    case _ => true
  }

  lemma {:induction false} PrintSpellable(t: CharTable, e: Expr, level: nat)
    requires Printable(t, e)
    ensures forall tok :: tok in Print(e, level) ==> Spellable(t, tok)
    decreases e, 1
  {
    BodySpellable(t, e);
  }

  lemma {:induction false} BodySpellable(t: CharTable, e: Expr)
    requires Printable(t, e)
    ensures forall tok :: tok in Body(e) ==> Spellable(t, tok)
    decreases e, 0
  {
    match e {
      case ECall(_, args) => ArgsSpellable(t, args);
      case EUnary(_, arg) => PrintSpellable(t, arg, LevelOf(e));
      case EBin(op, l, r) =>
        PrintSpellable(t, l, OperatorLevel(op));
        PrintSpellable(t, r, OperatorLevel(op) + 1);
      case ETern(c, y, n) =>
        PrintSpellable(t, c, NULLCOAL);
        PrintSpellable(t, y, TERNARY);
        PrintSpellable(t, n, TERNARY);
      case _ =>
    }
  }

  lemma {:induction false} ArgsSpellable(t: CharTable, args: seq<Expr>)
    requires forall a :: a in args ==> Printable(t, a)
    ensures forall tok :: tok in PrintArgs(args) ==> Spellable(t, tok)
    decreases args, 0
  {
    if args != [] {
      PrintSpellable(t, args[0], TERNARY);
      ArgsSpellable(t, args[1..]);
    }
  }

  // ----- rendered tokens are spelled

  lemma {:induction false} NatTextSpells(t: CharTable, n: nat)
    requires t.Valid()
    ensures Positional(t, Decimals.NatText(n)) == n
    ensures forall k :: 0 <= k < |Decimals.NatText(n)| ==>
      t.isDigit(Decimals.NatText(n)[k]) && t.decimal(Decimals.NatText(n)[k]).Some?
    decreases n
  {
    var c := DigitChar(n % 10);
    if n < 10 {
      assert [c][1..] == [];
    } else {
      NatTextSpells(t, n / 10);
      PositionalAppend(t, Decimals.NatText(n / 10), c);
    }
  }

  lemma {:induction false} EscapedBody(text: string)
    ensures BodyFor(EscapeAll(text), '"', text)
  {
    if text != [] {
      EscapedBody(text[1..]);
      EscapeFirst(text[0], EscapeAll(text[1..]), text[1..]);
      assert text == [text[0]] + text[1..];
    }
  }

  lemma EscapeFirst(c: char, body: string, text: string)
    requires BodyFor(body, '"', text)
    ensures BodyFor(Escape(c) + body, '"', [c] + text)
  {
    var w := Escape(c) + body;
    assert w[|Escape(c)|..] == body && w[0] == Escape(c)[0];
    assert ([c] + text)[1..] == text;
    if |Escape(c)| == 2 {
      assert w[1] == Escape(c)[1];
    }
  }

  lemma QuotedSpells(text: string)
    ensures QuotedFor("\"" + EscapeAll(text) + "\"", text)
  {
    var w, body := "\"" + EscapeAll(text) + "\"", EscapeAll(text);
    EscapedBody(text);
    assert w[1..|w| - 1] == body && w[0] == '"' && w[|w| - 1] == '"';
  }

  lemma NumberSpells(t: CharTable, number: Number)
    requires t.Valid() && Spellable(t, Num(number))
    ensures NumberFor(t, Render(Num(number)), number)
  {
    if number.Int? {
      NatTextSpells(t, number.value);
    } else {
      assert number.text[0] == '.' ==> number.text[1] != '.';
    }
  }

  /** What is rendered is a spelling of its token, and a space ends it. */
  lemma RenderSpells(t: CharTable, tok: Token)
    requires t.Valid() && Spellable(t, tok)
    ensures Render(tok) != [] && Spells(t, tok, Render(tok)) && Stops(t, Render(tok), ' ')
  {
    BlankFacts(t);
    match tok {
      case Num(number) => NumberSpells(t, number);
      case Str(text) => QuotedSpells(text);
      case Bind(name) =>
      case Ident(name) =>
      case _ => FixedSpells(t, tok);
    }
  }

  /** A symbol or a keyword. */
  lemma FixedSpells(t: CharTable, tok: Token)
    requires t.Valid() && !tok.Num? && !tok.Str? && !tok.Bind? && !tok.Ident? && !tok.Eof?
    ensures Render(tok) != [] && Spells(t, tok, Render(tok)) && Stops(t, Render(tok), ' ')
  {
    var w := Render(tok);
    BlankFacts(t);
    if tok.Not? || tok.NullLit? || tok.BoolLit? {
      assert Keyword(w);
    } else {
      assert w in Symbols(tok) && (|w| == 1 || |w| == 2) && IsSymbol(w[0]) && w[0] != '_' && w[0] != '.';
      assert |w| == 1 ==> forall p :: p in PAIRS ==> p[1] != ' ';
      SymbolFacts(t, w[0]);
    }
  }

  /** Rendered tokens and the columns they start at. */
  function PlacedFrom(i: nat, toks: seq<Token>): seq<Placed>
    decreases |toks|
  {
    if toks == [] then [] else [Placed(toks[0], i)] + PlacedFrom(i + |Render(toks[0])| + 1, toks[1..])
  }

  lemma {:induction false} PlacedTokens(i: nat, toks: seq<Token>)
    ensures Tokens(PlacedFrom(i, toks)) == toks
    decreases |toks|
  {
    if toks != [] {
      PlacedTokens(i + |Render(toks[0])| + 1, toks[1..]);
      TokensAppend([Placed(toks[0], i)], PlacedFrom(i + |Render(toks[0])| + 1, toks[1..]));
      assert toks == [toks[0]] + toks[1..];
    }
  }

  lemma Behind(s: string, i: nat, w: string, rest: string)
    requires i <= |s| && s[i..] == w + " " + rest
    ensures var j := i + |w|; j < |s| && s[i..j] == w && s[j] == ' ' && s[j + 1..] == rest
  {
    assert s[i..][..|w|] == w && s[i..][|w|] == ' ' && s[i..][|w| + 1..] == rest;
  }

  /** A text of rendered tokens spells them. */
  lemma {:induction false} RenderedSpells(t: CharTable, s: string, i: nat, toks: seq<Token>)
    requires t.Valid() && i <= |s| && s[i..] == RenderAll(toks)
    requires forall tok :: tok in toks ==> Spellable(t, tok)
    ensures SpellsFrom(t, s, i, PlacedFrom(i, toks))
    decreases |toks|
  {
    hide Spellable, Render, Spells, Stops;
    if toks != [] {
      var w, rest := Render(toks[0]), RenderAll(toks[1..]);
      var j := i + |w|;
      RenderSpells(t, toks[0]);
      Behind(s, i, w, rest);
      RenderedSpells(t, s, j + 1, toks[1..]);
      BlankFacts(t);
      SpaceFirst(t, s, j, PlacedFrom(j + 1, toks[1..]));
      assert StandsFor(t, s, i, j, toks[0]);
      TokenSpelled(t, s, i, j, toks[0], PlacedFrom(j + 1, toks[1..]));
    }
  }

  lemma StandsIn(t: CharTable, s: string, i: nat, j: nat, tok: Token)
    requires StandsFor(t, s, i, j, tok)
    ensures i < j <= |s|
  {
  }

  lemma TokenSpelled(t: CharTable, s: string, i: nat, j: nat, tok: Token, more: seq<Placed>)
    requires StandsFor(t, s, i, j, tok) && SpellsFrom(t, s, j, more)
    ensures SpellsFrom(t, s, i, [Placed(tok, i)] + more)
  {
    hide StandsFor;
    var toks := [Placed(tok, i)] + more;
    assert toks[1..] == more && toks[0] == Placed(tok, i);
    assert Spaces(t, s, i, i) by { assert i < j <= |s| by { StandsIn(t, s, i, j, tok); } }
  }

  /** Parsing undoes printing: text, tokens and tree. */
  lemma RoundTrip(t: CharTable, e: Expr)
    requires t.Valid() && Printable(t, e)
    ensures Lex(t, PrintText(e)).Ok? && Terminated(Lex(t, PrintText(e)).value)
    ensures Parse(t, Lex(t, PrintText(e)).value) == Ok(e)
  {
    hide LexFrom, Print, Terminated, Printable, RenderAll, Parse, Spellable, SpellsFrom, Derives, PlacedFrom;
    var s, toks := PrintText(e), Print(e, TERNARY);
    PrintSpellable(t, e, TERNARY);
    assert s[0..] == RenderAll(toks);
    RenderedSpells(t, s, 0, toks);
    PlacedTokens(0, toks);
    PrintDerives(t, e, TERNARY);
    ReadSpelled(t, s, PlacedFrom(0, toks), e);
    LexTerminated(t, s, 0);
  }
}
