/**
 How tokens are spelled, character by character and apart from the tokenizer
 (src/r2g/expressions.py:60-180), and that the tokenizer reads exactly the texts
 that spell a token sequence: any keyword case, either quote, any escape, any
 spaces.
 */
module Spelling {
  import opened Characters
  import opened ExpressionSyntax
  import opened Lexer

  // ----- spellings

  /** The symbols of a token. */
  function Symbols(tok: Token): set<string>
  {
    match tok
    case LParen => {"("}
    case RParen => {")"}
    case Comma => {","}
    case Plus => {"+"}
    case Minus => {"-"}
    case Star => {"*"}
    case Slash => {"/"}
    case Percent => {"%"}
    case QMark => {"?"}
    case Colon => {":"}
    case Eq => {"=="}
    case Neq => {"!="}
    case Lt => {"<"}
    case Lte => {"<="}
    case Gt => {">"}
    case Gte => {">="}
    case And => {"&&"}
    case Or => {"||"}
    case NullCoal => {"??"}
    case _ => {}
  }

  /** The symbols of two characters. */
  const PAIRS := {"==", "!=", "<=", ">=", "&&", "||", "??"}

  const WORDS := {"true", "false", "null", "and", "or", "not"}

  /** The lower-case words that stand for a token. */
  function WordsFor(tok: Token): set<string>
  {
    match tok
    case BoolLit(b) => {if b then "true" else "false"}
    case NullLit => {"null"}
    case And => {"and"}
    case Or => {"or"}
    case Not => {"not"}
    case _ => {}
  }

  /** `body` between quotes stands for `text`: a backslash takes the next character with it. */
  predicate BodyFor(body: string, quote: char, text: string)
    decreases |body|
  {
    if body == [] then text == []
    else if body[0] == '\\' then
      |body| >= 2 && text != [] && text[0] == Escaped(body[1]) && BodyFor(body[2..], quote, text[1..])
    else body[0] != quote && text != [] && text[0] == body[0] && BodyFor(body[1..], quote, text[1..])
  }

  /** The control characters that have a letter; any other character stands for itself. */
  const LETTERS: map<char, char> := map['n' := '\n', 't' := '\t', 'r' := '\r']

  function Escaped(c: char): char
  {
    if c in LETTERS then LETTERS[c] else c
  }

  predicate QuotedFor(w: string, text: string)
  {
    && |w| >= 2 && (w[0] == '"' || w[0] == '\'') && w[|w| - 1] == w[0]
    && BodyFor(w[1..|w| - 1], w[0], text)
  }

  /** Digits with at most one point, which may come first only before a digit. */
  predicate Numeral(t: CharTable, w: string)
  {
    && w != []
    && (t.isDigit(w[0]) || (w[0] == '.' && |w| > 1 && t.isDigit(w[1])))
    && (forall k :: 0 <= k < |w| ==> t.isDigit(w[k]) || w[k] == '.')
    && (forall j, k :: 0 <= j < k < |w| ==> w[j] != '.' || w[k] != '.')
  }

  predicate NumberFor(t: CharTable, w: string, number: Number)
  {
    && Numeral(t, w)
    && (forall k :: 0 <= k < |w| && w[k] != '.' ==> t.decimal(w[k]).Some?)
    && (if '.' in w then number == Decimal(w) else number == Int(Positional(t, w)))
  }

  /** The value of a numeral in base ten. */
  function Positional(t: CharTable, w: string): nat
  {
    if w == [] then 0
    else
      var d := t.decimal(w[0]);
      (if d.Some? then d.value * Power10(|w| - 1) else 0) + Positional(t, w[1..])
  }

  function Power10(n: nat): nat
  {
    if n == 0 then 1 else 10 * Power10(n - 1)
  }

  /** `w` is a spelling of `tok`. */
  predicate Spells(t: CharTable, tok: Token, w: string)
  {
    || w in Symbols(tok)
    || (t.Word(w) && t.Lower(w) in WordsFor(tok))
    || (tok.Ident? && w == tok.name && t.Word(w) && t.Lower(w) !in WORDS)
    || (tok.Bind? && w == "@" + tok.name && t.Word(tok.name))
    || (tok.Str? && QuotedFor(w, tok.text))
    || (tok.Num? && NumberFor(t, w, tok.number))
  }

  /** The character behind a spelling does not continue it. */
  predicate Stops(t: CharTable, w: string, c: char)
    requires w != []
  {
    if w[0] == '"' || w[0] == '\'' then true
    else if t.WordStart(w[0]) || w[0] == '@' then !t.WordChar(c)
    else if t.isDigit(w[0]) || w[0] == '.' then !t.isDigit(c) && (c == '.' ==> '.' in w)
    else |w| == 2 || [w[0], c] !in PAIRS
  }

  /** A spelling of `tok` stands in `s` from `i` to `j`, and no further. */
  ghost predicate StandsFor(t: CharTable, s: string, i: nat, j: nat, tok: Token)
  {
    i < j <= |s| && Spells(t, tok, s[i..j]) && (j < |s| ==> Stops(t, s[i..j], s[j]))
  }

  ghost predicate Spaces(t: CharTable, s: string, i: nat, j: nat)
  {
    i <= j <= |s| && forall k :: i <= k < j ==> t.isSpace(s[k])
  }

  /** From `i` on the text is spaces, the first token, spaces, ..., and spaces to its end. */
  ghost predicate SpellsFrom(t: CharTable, s: string, i: nat, toks: seq<Placed>)
    decreases |toks|
  {
    if toks == [] then Spaces(t, s, i, |s|)
    else
      && Spaces(t, s, i, toks[0].pos)
      && exists j :: StandsFor(t, s, toks[0].pos, j, toks[0].tok) && SpellsFrom(t, s, j, toks[1..])
  }

  // ----- one turn of the tokenizer, kind by kind

  lemma {:induction false} WordEndIs(t: CharTable, s: string, i: nat, j: nat)
    requires i <= j <= |s| && (forall k :: i <= k < j ==> t.WordChar(s[k])) && (j < |s| ==> !t.WordChar(s[j]))
    ensures WordEnd(t, s, i) == j
    decreases j - i
  {
    if i < j { WordEndIs(t, s, i + 1, j); }
  }

  lemma {:induction false} NumberEndIs(t: CharTable, s: string, i: nat, j: nat, dot: bool)
    requires i <= j <= |s| && (forall k :: i <= k < j ==> t.isDigit(s[k]) || s[k] == '.')
    requires !t.isDigit('.')
    requires forall m, n :: i <= m < n < j ==> s[m] != '.' || s[n] != '.'
    requires dot ==> forall k :: i <= k < j ==> s[k] != '.'
    requires j < |s| ==> !t.isDigit(s[j]) && (s[j] == '.' ==> dot || exists k :: i <= k < j && s[k] == '.')
    ensures NumberEnd(t, s, i, dot) == j
    decreases j - i
  {
    if i < j { NumberEndIs(t, s, i + 1, j, dot || s[i] == '.'); }
  }

  /** Where the scan of a number stops, and that it holds at most one point. */
  lemma {:induction false} NumberScanned(t: CharTable, s: string, i: nat, dot: bool)
    requires i <= |s| && !t.isDigit('.')
    ensures var j := NumberEnd(t, s, i, dot);
      && (forall m, n :: i <= m < n < j ==> s[m] != '.' || s[n] != '.')
      && (dot ==> forall k :: i <= k < j ==> s[k] != '.')
      && (j < |s| ==> !t.isDigit(s[j]) && (s[j] == '.' ==> dot || exists k :: i <= k < j && s[k] == '.'))
    decreases |s| - i
  {
    if i < |s| && (t.isDigit(s[i]) || (s[i] == '.' && !dot)) {
      NumberScanned(t, s, i + 1, dot || s[i] == '.');
    }
  }

  lemma {:induction false} BodyRead(s: string, i: nat, body: string, quote: char, text: string)
    requires i + |body| < |s| && s[i..i + |body|] == body && s[i + |body|] == quote && quote != '\\'
    requires BodyFor(body, quote, text)
    ensures QuoteEnd(s, i, quote) == i + |body| && QuoteText(s, i, quote) == text
    decreases |body|
  {
    if body == [] {
    } else if body[0] == '\\' {
      assert s[i] == '\\' && s[i + 1] == body[1];
      assert s[i + 2..i + |body|] == body[2..];
      BodyRead(s, i + 2, body[2..], quote, text[1..]);
      assert text == [text[0]] + text[1..];
    } else {
      assert s[i] == body[0];
      assert s[i + 1..i + |body|] == body[1..];
      BodyRead(s, i + 1, body[1..], quote, text[1..]);
      assert text == [text[0]] + text[1..];
    }
  }

  lemma {:induction false} ReadBody(s: string, i: nat, quote: char)
    requires QuoteEnd(s, i, quote) < |s| && quote != '\\'
    ensures BodyFor(s[i..QuoteEnd(s, i, quote)], quote, QuoteText(s, i, quote))
    decreases |s| - i
  {
    var j := QuoteEnd(s, i, quote);
    if s[i] == quote {
      assert s[i..i] == [];
    } else if s[i] == '\\' && i + 1 < |s| {
      ReadBody(s, i + 2, quote);
      assert s[i..j][2..] == s[i + 2..j];
      assert QuoteText(s, i, quote)[1..] == QuoteText(s, i + 2, quote);
    } else {
      ReadBody(s, i + 1, quote);
      assert s[i..j][1..] == s[i + 1..j];
      assert QuoteText(s, i, quote)[1..] == QuoteText(s, i + 1, quote);
    }
  }

  lemma {:induction false} PositionalAppend(t: CharTable, w: string, c: char)
    requires t.decimal(c).Some?
    ensures Positional(t, w + [c]) == 10 * Positional(t, w) + t.decimal(c).value
  {
    if w == [] {
      assert [c][1..] == [] && [] + [c] == [c];
    } else {
      assert (w + [c])[1..] == w[1..] + [c];
      PositionalAppend(t, w[1..], c);
      var d := t.decimal(w[0]);
      if d.Some? {
        assert d.value * Power10(|w|) == 10 * (d.value * Power10(|w| - 1));
      }
    }
  }

  lemma {:induction false} IntValueIs(t: CharTable, w: string)
    requires forall k :: 0 <= k < |w| ==> t.decimal(w[k]).Some?
    ensures IntValue(t, w) == Some(Positional(t, w))
  {
    if w == [] {
    } else {
      var n := |w| - 1;
      IntValueIs(t, w[..n]);
      assert w == w[..n] + [w[n]];
      PositionalAppend(t, w[..n], w[n]);
    }
  }

  lemma PairSymbols(a: char, b: char)
    ensures DoubleSymbol(a, b).Some? <==> [a, b] in PAIRS
    ensures DoubleSymbol(a, b).Some? ==> [a, b] in Symbols(DoubleSymbol(a, b).value)
  {
    assert [a, b][0] == a && [a, b][1] == b;
  }

  lemma SingleSymbols(c: char)
    ensures SingleSymbol(c).Some? ==> [c] in Symbols(SingleSymbol(c).value)
  {
  }

  /** A symbol is one or two characters that start nothing else. */
  lemma SymbolRead(tok: Token, w: string)
    requires w in Symbols(tok)
    ensures |w| == 1 || |w| == 2
    ensures |w| == 1 ==> SingleSymbol(w[0]) == Some(tok)
    ensures |w| == 2 ==> DoubleSymbol(w[0], w[1]) == Some(tok) && w in PAIRS
    ensures IsSymbol(w[0]) && w[0] !in "_.@\"'"
  {
  }

  lemma WordRead(t: CharTable, tok: Token, w: string)
    requires t.Word(w)
    ensures WordToken(t, w) == tok <==>
      t.Lower(w) in WordsFor(tok) || (tok.Ident? && w == tok.name && t.Lower(w) !in WORDS)
  {
  }

  /** What the first character of a spelling tells. */
  lemma Firsts(t: CharTable, c: char)
    requires t.Valid()
    ensures t.isSpace(c) ==> !IsSymbol(c) && !t.WordStart(c) && !t.isDigit(c)
    ensures t.isDigit(c) ==> !IsSymbol(c) && !t.WordStart(c)
    ensures t.WordStart(c) ==> t.WordChar(c) && (IsSymbol(c) ==> c == '_')
    ensures DoubleSymbol(c, c).Some? || SingleSymbol(c).Some? || c in "=!@\"'." ==> IsSymbol(c) && c != '_'
    ensures !t.isDigit('.') && !t.isSpace('.')
  {
  }

  // ----- symbols

  lemma SymbolStep(t: CharTable, s: string, i: nat)
    requires t.Valid() && i < |s| && IsSymbol(s[i]) && s[i] !in "_.@\"'"
    ensures LexStep(t, s, i) ==
      if i + 1 < |s| && DoubleSymbol(s[i], s[i + 1]).Some? then Emit(DoubleSymbol(s[i], s[i + 1]).value, i + 2)
      else if SingleSymbol(s[i]).Some? then Emit(SingleSymbol(s[i]).value, i + 1)
      else Bad(Syntax(i))
  {
    Firsts(t, s[i]);
  }

  lemma SymbolStands(t: CharTable, s: string, i: nat, j: nat, tok: Token)
    requires t.Valid() && i < j <= |s| && s[i..j] in Symbols(tok) && (j < |s| ==> Stops(t, s[i..j], s[j]))
    ensures LexStep(t, s, i) == Emit(tok, j)
  {
    var w := s[i..j];
    SymbolRead(tok, w);
    Firsts(t, w[0]);
    SymbolStep(t, s, i);
    if j == i + 1 && j < |s| {
      PairSymbols(s[i], s[j]);
    }
  }

  lemma SymbolEmitted(t: CharTable, s: string, i: nat, j: nat, tok: Token)
    requires t.Valid() && i < |s| && IsSymbol(s[i]) && s[i] !in "_.@\"'" && LexStep(t, s, i) == Emit(tok, j)
    ensures StandsFor(t, s, i, j, tok)
  {
    Firsts(t, s[i]);
    SymbolStep(t, s, i);
    if i + 1 < |s| {
      PairSymbols(s[i], s[i + 1]);
    }
    SingleSymbols(s[i]);
    assert j == i + 1 ==> s[i..j] == [s[i]];
    assert j == i + 2 ==> s[i..j] == [s[i], s[i + 1]];
    hide LexStep, Symbols, DoubleSymbol, SingleSymbol;
  }

  // ----- words and references

  lemma WordStep(t: CharTable, s: string, i: nat)
    requires t.Valid() && i < |s| && t.WordStart(s[i])
    ensures LexStep(t, s, i) == Emit(WordToken(t, s[i..WordEnd(t, s, i + 1)]), WordEnd(t, s, i + 1))
  {
    Firsts(t, s[i]);
  }

  lemma WordStands(t: CharTable, s: string, i: nat, j: nat, tok: Token)
    requires t.Valid() && i < j <= |s| && t.Word(s[i..j]) && WordToken(t, s[i..j]) == tok
    requires j < |s| ==> Stops(t, s[i..j], s[j])
    ensures LexStep(t, s, i) == Emit(tok, j)
  {
    var w := s[i..j];
    Firsts(t, w[0]);
    WordStep(t, s, i);
    hide LexStep, WordToken;
    forall k | i + 1 <= k < j ensures t.WordChar(s[k]) {
      assert w[k - i] == s[k];
    }
    WordEndIs(t, s, i + 1, j);
  }

  lemma WordEmitted(t: CharTable, s: string, i: nat, j: nat, tok: Token)
    requires t.Valid() && i < |s| && t.WordStart(s[i]) && LexStep(t, s, i) == Emit(tok, j)
    ensures StandsFor(t, s, i, j, tok)
  {
    WordStep(t, s, i);
    hide LexStep;
    var w := s[i..j];
    Firsts(t, s[i]);
    WordRead(t, tok, w);
    hide WordToken, WordsFor, Symbols, QuotedFor, NumberFor;
    assert w[0] == s[i];
  }

  lemma BindReads(t: CharTable, s: string, i: nat)
    requires t.Valid() && i < |s| && s[i] == '@'
    ensures LexStep(t, s, i) ==
      if i + 1 < |s| && t.WordStart(s[i + 1])
      then Emit(Bind(s[i + 1..WordEnd(t, s, i + 1)]), WordEnd(t, s, i + 1)) else Bad(Syntax(i))
  {
    Firsts(t, '@');
  }

  lemma BindStands(t: CharTable, s: string, i: nat, j: nat, name: string)
    requires t.Valid() && i < j <= |s| && t.Word(name) && s[i..j] == "@" + name
    requires j < |s| ==> Stops(t, s[i..j], s[j])
    ensures LexStep(t, s, i) == Emit(Bind(name), j)
  {
    assert s[i] == s[i..j][0] == '@';
    assert s[i + 1..j] == s[i..j][1..] == name;
    BindReads(t, s, i);
    Firsts(t, '@');
    forall k | i + 1 <= k < j ensures t.WordChar(s[k]) {
      assert name[k - i - 1] == s[k];
    }
    assert s[i + 1] == name[0];
    hide LexStep;
    WordEndIs(t, s, i + 1, j);
  }

  lemma BindEmitted(t: CharTable, s: string, i: nat, j: nat, tok: Token)
    requires t.Valid() && i < |s| && s[i] == '@' && LexStep(t, s, i) == Emit(tok, j)
    ensures StandsFor(t, s, i, j, tok)
  {
    BindReads(t, s, i);
    hide LexStep;
    Firsts(t, '@');
    Firsts(t, s[i + 1]);
    var w := s[i..j];
    assert w == "@" + s[i + 1..j];
    hide Symbols, QuotedFor, NumberFor;
  }

  // ----- strings

  lemma StringReads(t: CharTable, s: string, i: nat)
    requires t.Valid() && i < |s| && (s[i] == '"' || s[i] == '\'')
    ensures var j := QuoteEnd(s, i + 1, s[i]);
      LexStep(t, s, i) == if j >= |s| then Bad(Syntax(i)) else Emit(Str(QuoteText(s, i + 1, s[i])), j + 1)
  {
    hide LexStep, QuoteEnd, QuoteText;
    Firsts(t, s[i]);
    QuoteStep(t, s, i, s[i]);
  }

  lemma StringStands(t: CharTable, s: string, i: nat, j: nat, text: string)
    requires t.Valid() && i < j <= |s| && QuotedFor(s[i..j], text)
    ensures LexStep(t, s, i) == Emit(Str(text), j)
  {
    hide LexStep, QuoteEnd, QuoteText, BodyFor;
    var body := s[i + 1..j - 1];
    Inside(s, i, j);
    StringReads(t, s, i);
    BodyRead(s, i + 1, body, s[i], text);
  }

  lemma Inside(s: string, i: nat, j: nat)
    requires i + 2 <= j <= |s|
    ensures |s[i..j]| == j - i && s[i..j][0] == s[i] && s[i..j][j - i - 1] == s[j - 1]
    ensures s[i..j][1..j - i - 1] == s[i + 1..j - 1]
  {
    var inner, between := s[i..j][1..j - i - 1], s[i + 1..j - 1];
    forall k | 0 <= k < |inner| ensures inner[k] == between[k] {
      assert s[i..j][k + 1] == s[i + k + 1];
    }
  }

  lemma StringEmitted(t: CharTable, s: string, i: nat, j: nat, tok: Token)
    requires t.Valid() && i < |s| && (s[i] == '"' || s[i] == '\'') && LexStep(t, s, i) == Emit(tok, j)
    ensures StandsFor(t, s, i, j, tok)
  {
    hide LexStep, QuoteText, BodyFor;
    StringReads(t, s, i);
    ReadBody(s, i + 1, s[i]);
    assert s[j - 1] == s[i] && j >= i + 2;
    Inside(s, i, j);
    QuotedStands(t, s, i, j, tok);
  }

  lemma QuotedStands(t: CharTable, s: string, i: nat, j: nat, tok: Token)
    requires i < j <= |s| && tok.Str? && QuotedFor(s[i..j], tok.text)
    ensures StandsFor(t, s, i, j, tok)
  {
    hide BodyFor, Symbols;
  }

  // ----- numbers

  lemma NumberReads(t: CharTable, s: string, i: nat)
    requires t.Valid() && i < |s| && (t.isDigit(s[i]) || (s[i] == '.' && i + 1 < |s| && t.isDigit(s[i + 1])))
    ensures StartsNumber(t, s, i) && LexStep(t, s, i) == LexNumber(t, s, i)
  {
    Firsts(t, s[i]);
  }

  lemma NumberStands(t: CharTable, s: string, i: nat, j: nat, number: Number)
    requires t.Valid() && i < j <= |s| && NumberFor(t, s[i..j], number) && (j < |s| ==> Stops(t, s[i..j], s[j]))
    ensures LexStep(t, s, i) == Emit(Num(number), j)
  {
    var w := s[i..j];
    Firsts(t, w[0]);
    NumeralStands(t, s, i, j);
    NumberReads(t, s, i);
    hide LexStep;
    if '.' !in w {
      IntValueIs(t, w);
    }
  }

  lemma NumeralStands(t: CharTable, s: string, i: nat, j: nat)
    requires t.Valid() && i < j <= |s| && Numeral(t, s[i..j]) && (j < |s| ==> Stops(t, s[i..j], s[j]))
    ensures NumberEnd(t, s, i, false) == j && s[i] == s[i..j][0] && (j > i + 1 ==> s[i + 1] == s[i..j][1])
  {
    var w := s[i..j];
    Firsts(t, w[0]);
    forall k | i <= k < j ensures (t.isDigit(s[k]) || s[k] == '.') && (forall n :: k < n < j ==> s[k] != '.' || s[n] != '.') {
      assert w[k - i] == s[k];
      forall n | k < n < j ensures s[k] != '.' || s[n] != '.' {
        assert w[n - i] == s[n];
      }
    }
    if '.' in w {
      var k :| 0 <= k < |w| && w[k] == '.';
      assert s[i + k] == '.';
    }
    NumberEndIs(t, s, i, j, false);
  }

  lemma NumberEmitted(t: CharTable, s: string, i: nat, j: nat, tok: Token)
    requires t.Valid() && i < |s| && (t.isDigit(s[i]) || (s[i] == '.' && i + 1 < |s| && t.isDigit(s[i + 1])))
    requires LexStep(t, s, i) == Emit(tok, j)
    ensures StandsFor(t, s, i, j, tok)
  {
    NumberReads(t, s, i);
    hide LexStep;
    var w := s[i..j];
    assert j == NumberEnd(t, s, i, false) && tok.Num? && NumberValue(t, w) == Some(tok.number);
    Firsts(t, s[i]);
    NumeralEmitted(t, s, i, j);
    NumberIs(t, w, tok.number);
    hide Symbols, QuotedFor, NumberFor, NumberEnd, Numeral;
    assert w[0] == s[i];
  }

  lemma NumeralEmitted(t: CharTable, s: string, i: nat, j: nat)
    requires t.Valid() && i < |s| && (t.isDigit(s[i]) || (s[i] == '.' && i + 1 < |s| && t.isDigit(s[i + 1])))
    requires j == NumberEnd(t, s, i, false)
    ensures i < j <= |s| && Numeral(t, s[i..j])
    ensures j < |s| ==> !t.isDigit(s[j]) && (s[j] == '.' ==> '.' in s[i..j])
  {
    Firsts(t, s[i]);
    NumberScanned(t, s, i, false);
    var w := s[i..j];
    assert s[i] == '.' ==> j > i + 1;
    if j < |s| && s[j] == '.' {
      var k :| i <= k < j && s[k] == '.';
      assert w[k - i] == '.';
    }
  }

  lemma NumberIs(t: CharTable, w: string, number: Number)
    requires Numeral(t, w) && NumberValue(t, w) == Some(number)
    ensures NumberFor(t, w, number)
  {
    if '.' !in w {
      IntValueExactly(t, w);
      IntValueIs(t, w);
    }
  }

  // ----- every turn

  /** The tokenizer emits a token exactly where a spelling of it stands. */
  lemma StepExactly(t: CharTable, s: string, i: nat, j: nat, tok: Token)
    requires t.Valid() && i < |s|
    ensures LexStep(t, s, i) == Emit(tok, j) <==> StandsFor(t, s, i, j, tok)
    ensures LexStep(t, s, i) == Skip(j) <==> t.isSpace(s[i]) && j == i + 1
  {
    if StandsFor(t, s, i, j, tok) {
      TokenStands(t, s, i, j, tok);
    }
    if LexStep(t, s, i) == Emit(tok, j) {
      TokenEmitted(t, s, i, j, tok);
    }
    Firsts(t, s[i]);
  }

  lemma TokenStands(t: CharTable, s: string, i: nat, j: nat, tok: Token)
    requires t.Valid() && StandsFor(t, s, i, j, tok)
    ensures LexStep(t, s, i) == Emit(tok, j)
  {
    hide LexStep, Stops;
    var w := s[i..j];
    if w in Symbols(tok) {
      SymbolStands(t, s, i, j, tok);
    } else if t.Word(w) && (t.Lower(w) in WordsFor(tok) || (tok.Ident? && w == tok.name && t.Lower(w) !in WORDS)) {
      WordRead(t, tok, w);
      WordStands(t, s, i, j, tok);
    } else if tok.Bind? {
      BindStands(t, s, i, j, tok.name);
    } else if tok.Str? {
      StringStands(t, s, i, j, tok.text);
    } else {
      NumberStands(t, s, i, j, tok.number);
    }
  }

  lemma TokenEmitted(t: CharTable, s: string, i: nat, j: nat, tok: Token)
    requires t.Valid() && i < |s| && LexStep(t, s, i) == Emit(tok, j)
    ensures StandsFor(t, s, i, j, tok)
  {
    if t.WordStart(s[i]) {
      WordEmitted(t, s, i, j, tok);
    } else if s[i] == '@' {
      BindEmitted(t, s, i, j, tok);
    } else if s[i] == '"' || s[i] == '\'' {
      StringEmitted(t, s, i, j, tok);
    } else if t.isDigit(s[i]) || (s[i] == '.' && i + 1 < |s| && t.isDigit(s[i + 1])) {
      NumberEmitted(t, s, i, j, tok);
    } else {
      SymbolStart(t, s, i, j, tok);
      SymbolEmitted(t, s, i, j, tok);
    }
  }

  lemma SymbolStart(t: CharTable, s: string, i: nat, j: nat, tok: Token)
    requires t.Valid() && i < |s| && LexStep(t, s, i) == Emit(tok, j)
    requires !t.WordStart(s[i]) && s[i] != '@' && s[i] != '"' && s[i] != '\''
    requires !(t.isDigit(s[i]) || (s[i] == '.' && i + 1 < |s| && t.isDigit(s[i + 1])))
    ensures IsSymbol(s[i]) && s[i] !in "_.@\"'"
  {
  }

  // ----- whole texts

  lemma SpaceFirst(t: CharTable, s: string, i: nat, toks: seq<Placed>)
    requires t.Valid() && i < |s| && t.isSpace(s[i])
    ensures SpellsFrom(t, s, i, toks) <==> SpellsFrom(t, s, i + 1, toks)
  {
    hide StandsFor, LexStep;
    if toks != [] && toks[0].pos == i {
      StepExactly(t, s, i, i + 1, toks[0].tok);
      forall j: nat ensures !StandsFor(t, s, i, j, toks[0].tok) {
        StepExactly(t, s, i, j, toks[0].tok);
      }
    }
  }

  lemma TokenFirst(t: CharTable, s: string, i: nat, toks: seq<Placed>)
    requires i < |s| && !t.isSpace(s[i])
    ensures SpellsFrom(t, s, i, toks) <==>
      toks != [] && toks[0].pos == i && exists j :: StandsFor(t, s, i, j, toks[0].tok) && SpellsFrom(t, s, j, toks[1..])
  {
    hide StandsFor;
  }

  lemma PrefixedIs(first: Placed, r: Result<seq<Placed>>, toks: seq<Placed>, end: Placed)
    requires first.tok != Eof && end.tok == Eof
    ensures Prefixed([first], r) == Ok(toks + [end]) <==> toks != [] && toks[0] == first && r == Ok(toks[1..] + [end])
  {
    if toks != [] {
      assert toks + [end] == [toks[0]] + (toks[1..] + [end]);
      if Prefixed([first], r) == Ok(toks + [end]) {
        assert ([first] + r.value)[0] == toks[0];
        assert ([first] + r.value)[1..] == r.value;
        assert (toks + [end])[1..] == toks[1..] + [end];
      }
    } else if r.Ok? {
      assert ([first] + r.value)[0] == first;
    }
  }

  /** The tokenizer gives these tokens, at these columns, exactly when the text spells them. */
  lemma {:induction false} LexExactly(t: CharTable, s: string, i: nat, toks: seq<Placed>)
    requires t.Valid() && i <= |s|
    ensures LexFrom(t, s, i) == Ok(toks + [Placed(Eof, |s|)]) <==> SpellsFrom(t, s, i, toks)
    decreases |s| - i
  {
    var end := Placed(Eof, |s|);
    if i == |s| {
      LexEnds(t, s, toks);
    } else if t.isSpace(s[i]) {
      StepExactly(t, s, i, i + 1, Eof);
      SpaceFirst(t, s, i, toks);
      hide LexStep, SpellsFrom;
      LexExactly(t, s, i + 1, toks);
    } else {
      TokenFirst(t, s, i, toks);
      StepExactly(t, s, i, i + 1, Eof);
      var step := LexStep(t, s, i);
      if step.Emit? {
        PrefixedIs(Placed(step.tok, i), LexFrom(t, s, step.next), toks, end);
        if toks != [] {
          LexExactly(t, s, step.next, toks[1..]);
        }
        hide SpellsFrom, Prefixed, StandsFor;
        forall j: nat, tok ensures StandsFor(t, s, i, j, tok) <==> step == Emit(tok, j) {
          StepExactly(t, s, i, j, tok);
        }
      } else {
        hide SpellsFrom, StandsFor;
        if toks != [] {
          forall j: nat ensures !StandsFor(t, s, i, j, toks[0].tok) {
            StepExactly(t, s, i, j, toks[0].tok);
          }
        }
      }
    }
  }

  lemma LexEnds(t: CharTable, s: string, toks: seq<Placed>)
    ensures LexFrom(t, s, |s|) == Ok(toks + [Placed(Eof, |s|)]) <==> SpellsFrom(t, s, |s|, toks)
  {
    var end := Placed(Eof, |s|);
    if toks == [] {
      assert [] + [end] == [end];
    } else {
      assert (toks + [end])[|toks|] == end && |toks + [end]| > 1;
    }
  }
}
