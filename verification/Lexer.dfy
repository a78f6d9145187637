/**
 The tokenizer. `LexStep` is one turn of its main loop; `Lex` the whole run.
 */
module Lexer {
  import opened Characters
  import opened ExpressionSyntax

  datatype Step = Skip(next: nat) | Emit(tok: Token, next: nat) | Bad(error: Error)

  // ----- words, strings and numbers

  /** The end of the run of word characters that starts at `j`. */
  function WordEnd(t: CharTable, s: string, j: nat): (k: nat)
    requires j <= |s|
    ensures j <= k <= |s|
    ensures forall m :: j <= m < k ==> t.WordChar(s[m])
    ensures k < |s| ==> !t.WordChar(s[k])
    decreases |s| - j
  {
    if j < |s| && t.WordChar(s[j]) then WordEnd(t, s, j + 1) else j
  }

  function Unescape(c: char): char
  {
    match c
    case 'n' => '\n'
    case 't' => '\t'
    case 'r' => '\r'
    case _ => c
  }

  /** Where a string literal whose body starts at `j` has its closing quote
      (`|s|` or beyond when it has none). */
  function QuoteEnd(s: string, j: nat, quote: char): (k: nat)
    ensures j <= k
    ensures k < |s| ==> s[k] == quote
    decreases |s| - j
  {
    if j >= |s| || s[j] == quote then j
    else if s[j] == '\\' && j + 1 < |s| then QuoteEnd(s, j + 2, quote)
    else QuoteEnd(s, j + 1, quote)
  }

  /** The text of that literal, escapes decoded. */
  function QuoteText(s: string, j: nat, quote: char): string
    decreases |s| - j
  {
    if j >= |s| || s[j] == quote then []
    else if s[j] == '\\' && j + 1 < |s| then [Unescape(s[j + 1])] + QuoteText(s, j + 2, quote)
    else [s[j]] + QuoteText(s, j + 1, quote)
  }

  /** The end of a number whose digits continue at `j`; `dot` once a point was read. */
  function NumberEnd(t: CharTable, s: string, j: nat, dot: bool): (k: nat)
    requires j <= |s|
    ensures j <= k <= |s|
    ensures forall m :: j <= m < k ==> t.isDigit(s[m]) || s[m] == '.'
    decreases |s| - j
  {
    if j < |s| && (t.isDigit(s[j]) || (s[j] == '.' && !dot))
    then NumberEnd(t, s, j + 1, dot || s[j] == '.')
    else j
  }

  /** `int(raw)`; nothing when a character is no decimal digit. */
  function IntValue(t: CharTable, raw: string): Option<nat>
  {
    if raw == [] then Some(0)
    else
      var head, last := IntValue(t, raw[..|raw| - 1]), t.decimal(raw[|raw| - 1]);
      if head.Some? && last.Some? then Some(10 * head.value + last.value) else None
  }

  /** The value of a scanned number: an integer, or a decimal kept as text. */
  function NumberValue(t: CharTable, raw: string): Option<Number>
  {
    if '.' in raw then
      if forall k :: 0 <= k < |raw| && raw[k] != '.' ==> t.decimal(raw[k]).Some?
      then Some(Decimal(raw)) else None
    else
      var v := IntValue(t, raw);
      if v.Some? then Some(Int(v.value)) else None
  }

  function WordToken(t: CharTable, w: string): Token
  {
    match t.Lower(w)
    case "true" => BoolLit(true)
    case "false" => BoolLit(false)
    case "null" => NullLit
    case "and" => And
    case "or" => Or
    case "not" => Not
    case _ => Ident(w)
  }

  // ----- symbols

  function DoubleSymbol(a: char, b: char): Option<Token>
  {
    if a == '=' && b == '=' then Some(Eq)
    else if a == '!' && b == '=' then Some(Neq)
    else if a == '<' && b == '=' then Some(Lte)
    else if a == '>' && b == '=' then Some(Gte)
    else if a == '&' && b == '&' then Some(And)
    else if a == '|' && b == '|' then Some(Or)
    else if a == '?' && b == '?' then Some(NullCoal)
    else None
  }

  function SingleSymbol(c: char): Option<Token>
  {
    match c
    case '(' => Some(LParen)
    case ')' => Some(RParen)
    case ',' => Some(Comma)
    case '+' => Some(Plus)
    case '-' => Some(Minus)
    case '*' => Some(Star)
    case '/' => Some(Slash)
    case '%' => Some(Percent)
    case '?' => Some(QMark)
    case ':' => Some(Colon)
    case '<' => Some(Lt)
    case '>' => Some(Gt)
    case _ => None
  }

  predicate IsQuote(c: char) { c == '"' || c == '\'' }

  predicate StartsNumber(t: CharTable, s: string, i: nat)
    requires i < |s|
  {
    t.isDigit(s[i]) || (s[i] == '.' && i + 1 < |s| && t.isDigit(s[i + 1]))
  }

  // ----- one token

  function LexStep(t: CharTable, s: string, i: nat): (r: Step)
    requires i < |s|
    ensures !r.Bad? ==> i < r.next <= |s|
    ensures r.Emit? ==> r.tok != Eof
    ensures r.Bad? ==> r.error.Syntax? || r.error.NotANumber?
  {
    var c := s[i];
    if t.isSpace(c) then Skip(i + 1)
    else if i + 1 < |s| && DoubleSymbol(c, s[i + 1]).Some? then
      Emit(DoubleSymbol(c, s[i + 1]).value, i + 2)
    else if SingleSymbol(c).Some? then Emit(SingleSymbol(c).value, i + 1)
    else if c == '=' || c == '!' then Bad(Syntax(i))
    else if c == '@' then
      if i + 1 < |s| && t.WordStart(s[i + 1]) then
        var j := WordEnd(t, s, i + 1);
        Emit(Bind(s[i + 1..j]), j)
      else Bad(Syntax(i))
    else if IsQuote(c) then
      var j := QuoteEnd(s, i + 1, c);
      if j >= |s| then Bad(Syntax(i)) else Emit(Str(QuoteText(s, i + 1, c)), j + 1)
    else if StartsNumber(t, s, i) then LexNumber(t, s, i)
    else if t.WordStart(c) then
      var j := WordEnd(t, s, i + 1);  // a letter is itself a word character
      Emit(WordToken(t, s[i..j]), j)
    else Bad(Syntax(i))
  }

  function LexNumber(t: CharTable, s: string, i: nat): (r: Step)
    requires i < |s| && StartsNumber(t, s, i)
    ensures !r.Bad? ==> i < r.next <= |s|
    ensures r.Emit? ==> r.tok.Num?
    ensures r.Bad? ==> r.error.NotANumber?
  {
    var j := NumberEnd(t, s, i, false);
    var v := NumberValue(t, s[i..j]);
    if v.Some? then Emit(Num(v.value), j) else Bad(NotANumber(i))
  }

  lemma {:induction false} IntValueExactly(t: CharTable, raw: string)
    ensures IntValue(t, raw).None? <==> exists k :: 0 <= k < |raw| && t.decimal(raw[k]).None?
  {
    if raw != [] {
      var n := |raw| - 1;
      IntValueExactly(t, raw[..n]);
      if k :| 0 <= k < n && t.decimal(raw[..n][k]).None? {
        assert t.decimal(raw[k]).None?;
      }
      if k :| 0 <= k < |raw| && t.decimal(raw[k]).None? && k < n {
        assert t.decimal(raw[..n][k]).None?;
      }
    }
  }

  /** A number is refused exactly when one of its digits has no decimal value. */
  lemma NumberRefusedExactly(t: CharTable, s: string, i: nat)
    requires i < |s| && StartsNumber(t, s, i)
    ensures LexNumber(t, s, i).Bad? <==>
      exists k :: i <= k < NumberEnd(t, s, i, false) && s[k] != '.' && t.decimal(s[k]).None?
  {
    var j := NumberEnd(t, s, i, false);
    var raw := s[i..j];
    IntValueExactly(t, raw);
    forall k | i <= k < j ensures raw[k - i] == s[k] {
    }
    if k :| 0 <= k < |raw| && raw[k] != '.' && t.decimal(raw[k]).None? {
      assert s[i + k] != '.' && t.decimal(s[i + k]).None?;
    }
    if '.' !in raw && LexNumber(t, s, i).Bad? {
      var k :| 0 <= k < |raw| && t.decimal(raw[k]).None?;
      assert raw[k] in raw;
    }
  }


  // ----- single turns

  lemma BindStep(t: CharTable, s: string, i: nat)
    requires i + 1 < |s| && s[i] == '@' && t.WordStart(s[i + 1]) && !t.isSpace('@')
    ensures LexStep(t, s, i) == Emit(Bind(s[i + 1..WordEnd(t, s, i + 1)]), WordEnd(t, s, i + 1))
  {
  }

  lemma QuoteIsNoSymbol(quote: char, next: char)
    requires IsQuote(quote)
    ensures DoubleSymbol(quote, next) == None && SingleSymbol(quote) == None
    ensures quote != '=' && quote != '!' && quote != '@'
  {
  }

  lemma QuoteStep(t: CharTable, s: string, i: nat, quote: char)
    requires i < |s| && s[i] == quote && IsQuote(quote) && !t.isSpace(quote)
    ensures LexStep(t, s, i) ==
      if QuoteEnd(s, i + 1, quote) >= |s| then Bad(Syntax(i))
      else Emit(Str(QuoteText(s, i + 1, quote)), QuoteEnd(s, i + 1, quote) + 1)
  {
    hide DoubleSymbol, SingleSymbol, IsQuote, QuoteEnd, QuoteText, WordToken, NumberValue;
    QuoteIsNoSymbol(quote, if i + 1 < |s| then s[i + 1] else quote);
  }

  // ----- the whole run

  function Lex(t: CharTable, s: string): Result<seq<Placed>>
  {
    LexFrom(t, s, 0)
  }

  function LexFrom(t: CharTable, s: string, i: nat): (r: Result<seq<Placed>>)
    requires i <= |s|
    ensures r.Fail? ==> r.error.Syntax? || r.error.NotANumber?
    decreases |s| - i
  {
    if i == |s| then Ok([Placed(Eof, i)])
    else match LexStep(t, s, i)
      case Skip(next) => LexFrom(t, s, next)
      case Bad(error) => Fail(error)
      case Emit(tok, next) => Prefixed([Placed(tok, i)], LexFrom(t, s, next))
  }

  function Prefixed(toks: seq<Placed>, r: Result<seq<Placed>>): Result<seq<Placed>>
  {
    match r
    case Ok(more) => Ok(toks + more)
    case Fail(error) => Fail(error)
  }

  /** A text of one digit without a decimal value, such as a superscript two: the scan
      takes it for a number and the conversion refuses it. */
  lemma BareDigitRefused(t: CharTable, c: char)
    requires t.Valid() && t.isDigit(c) && t.decimal(c).None?
    ensures Lex(t, [c]) == Fail(NotANumber(0))
  {
    var s := [c];
    NumberRefusedExactly(t, s, 0);
    assert NumberEnd(t, s, 0, false) == 1;
    assert s[0] != '.' && !IsSymbol(c) && !t.isSpace(c);
    assert LexNumber(t, s, 0).Bad?;
    assert LexStep(t, s, 0) == Bad(NotANumber(0));
  }

  /** A token sequence the parser may be given: closed by its only EOF. */
  predicate Terminated(toks: seq<Placed>)
  {
    && toks != [] && toks[|toks| - 1].tok == Eof
    && forall k :: 0 <= k < |toks| - 1 ==> toks[k].tok != Eof
  }

  lemma {:induction false} LexTerminated(t: CharTable, s: string, i: nat)
    requires i <= |s|
    ensures LexFrom(t, s, i).Ok? ==> Terminated(LexFrom(t, s, i).value)
    decreases |s| - i
  {
    if i < |s| {
      var step := LexStep(t, s, i);
      if !step.Bad? {
        LexTerminated(t, s, step.next);
      }
    }
  }

  // ----- the loops

  method ReadWord(t: CharTable, s: string, start: nat) returns (j: nat)
    requires start <= |s|
    ensures j == WordEnd(t, s, start)
  {
    j := start;
    while j < |s| && t.WordChar(s[j])
      invariant start <= j <= |s| && WordEnd(t, s, j) == WordEnd(t, s, start)
    {
      j := j + 1;
    }
  }

  ghost predicate ReadSoFar(s: string, start: nat, quote: char, j: nat, out: string)
  {
    && QuoteEnd(s, j, quote) == QuoteEnd(s, start, quote)
    && out + QuoteText(s, j, quote) == QuoteText(s, start, quote)
  }

  lemma ReadSoFarStep(s: string, start: nat, quote: char, j: nat, out: string)
    requires ReadSoFar(s, start, quote, j, out) && j < |s| && s[j] != quote
    ensures if s[j] == '\\' && j + 1 < |s| then ReadSoFar(s, start, quote, j + 2, out + [Unescape(s[j + 1])])
            else ReadSoFar(s, start, quote, j + 1, out + [s[j]])
  {
    if s[j] == '\\' && j + 1 < |s| {
      var u := [Unescape(s[j + 1])];
      assert out + (u + QuoteText(s, j + 2, quote)) == (out + u) + QuoteText(s, j + 2, quote);
    } else {
      assert out + ([s[j]] + QuoteText(s, j + 1, quote)) == (out + [s[j]]) + QuoteText(s, j + 1, quote);
    }
  }

  method ReadString(s: string, start: nat, quote: char) returns (j: nat, out: string)
    ensures j == QuoteEnd(s, start, quote) && out == QuoteText(s, start, quote)
  {
    j, out := start, [];
    while j < |s| && s[j] != quote
      invariant start <= j && ReadSoFar(s, start, quote, j, out)
      decreases |s| - j
    {
      ReadSoFarStep(s, start, quote, j, out);
      if s[j] == '\\' && j + 1 < |s| {
        out := out + [Unescape(s[j + 1])];
        j := j + 2;
      } else {
        out := out + [s[j]];
        j := j + 1;
      }
    }
  }

  method ReadNumber(t: CharTable, s: string, start: nat) returns (j: nat)
    requires start <= |s|
    ensures j == NumberEnd(t, s, start, false)
  {
    j := start;
    var dot := false;
    while j < |s| && (t.isDigit(s[j]) || (s[j] == '.' && !dot))
      invariant start <= j <= |s| && NumberEnd(t, s, j, dot) == NumberEnd(t, s, start, false)
      decreases |s| - j
    {
      if s[j] == '.' {
        dot := true;
      }
      j := j + 1;
    }
  }

  /** The tokens appended so far, followed by those of the rest, are all. */
  ghost predicate Resumes(t: CharTable, s: string, toks: seq<Placed>, i: nat)
  {
    i <= |s| && Lex(t, s) == Prefixed(toks, LexFrom(t, s, i))
  }

  lemma ResumesStep(t: CharTable, s: string, toks: seq<Placed>, i: nat)
    requires Resumes(t, s, toks, i) && i < |s|
    ensures LexStep(t, s, i).Skip? ==> Resumes(t, s, toks, LexStep(t, s, i).next)
    ensures LexStep(t, s, i).Bad? ==> Lex(t, s) == Fail(LexStep(t, s, i).error)
    ensures LexStep(t, s, i).Emit? ==>
      Resumes(t, s, toks + [Placed(LexStep(t, s, i).tok, i)], LexStep(t, s, i).next)
  {
    var step := LexStep(t, s, i);
    if step.Emit? {
      var rest := LexFrom(t, s, step.next);
      if rest.Ok? {
        assert toks + ([Placed(step.tok, i)] + rest.value) == (toks + [Placed(step.tok, i)]) + rest.value;
      }
    }
  }

  /** The tokenizer's main loop. */
  method Tokenize(t: CharTable, src: string) returns (r: Result<seq<Placed>>)
    ensures r == Lex(t, src)
  {
    var toks: seq<Placed> := [];
    var i := 0;
    assert Lex(t, src) == Prefixed([], LexFrom(t, src, 0)) by {
      if LexFrom(t, src, 0).Ok? { assert [] + LexFrom(t, src, 0).value == LexFrom(t, src, 0).value; }
    }
    while i < |src|
      invariant Resumes(t, src, toks, i)
      decreases |src| - i
    {
      ResumesStep(t, src, toks, i);
      var step := ReadToken(t, src, i);
      match step {
        case Skip(next) =>
          i := next;
        case Bad(error) =>
          return Fail(error);
        case Emit(tok, next) =>
          toks := toks + [Placed(tok, i)];
          i := next;
      }
    }
    r := Ok(toks + [Placed(Eof, i)]);
  }

  /** One turn of the loop: which token starts at `i`, and where it ends. */
  method ReadToken(t: CharTable, src: string, i: nat) returns (step: Step)
    requires i < |src|
    ensures step == LexStep(t, src, i)
  {
    var c := src[i];
    if t.isSpace(c) {
      return Skip(i + 1);
    }
    if i + 1 < |src| {
      var double := DoubleSymbol(c, src[i + 1]);
      if double.Some? {
        return Emit(double.value, i + 2);
      }
    }
    var single := SingleSymbol(c);
    if single.Some? {
      return Emit(single.value, i + 1);
    }
    if c == '=' || c == '!' {
      return Bad(Syntax(i));
    }
    if c == '@' {
      if i + 1 >= |src| || !t.WordStart(src[i + 1]) {
        return Bad(Syntax(i));
      }
      var j := ReadWord(t, src, i + 1);
      return Emit(Bind(src[i + 1..j]), j);
    }
    if IsQuote(c) {
      var j, text := ReadString(src, i + 1, c);
      if j >= |src| {
        return Bad(Syntax(i));
      }
      return Emit(Str(text), j + 1);
    }
    if StartsNumber(t, src, i) {
      var j := ReadNumber(t, src, i);
      var v := NumberValue(t, src[i..j]);
      return if v.Some? then Emit(Num(v.value), j) else Bad(NotANumber(i));
    }
    if t.WordStart(c) {
      var j := ReadWord(t, src, i + 1);
      return Emit(WordToken(t, src[i..j]), j);
    }
    return Bad(Syntax(i));
  }
}
