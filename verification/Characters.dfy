/**
 What the expression language asks of Python's character functions. A
 `CharTable` stands for the Unicode database: any table is allowed that agrees
 with ASCII and keeps spaces, word characters and punctuation apart.
 */
module Characters {

  datatype Option<+T> = None | Some(value: T)

  datatype CharTable = CharTable(
    isSpace: char -> bool,
    isAlpha: char -> bool,
    isAlnum: char -> bool,
    isDigit: char -> bool,
    /** the value `int()` reads a digit as; some digits (superscripts) have none */
    decimal: char -> Option<nat>,
    lower: char -> string,
    upper: char -> string)
  {
    predicate WordStart(c: char) { isAlpha(c) || c == '_' }

    predicate WordChar(c: char) { isAlnum(c) || c == '_' }

    predicate Word(w: string)
    {
      w != [] && WordStart(w[0]) && forall k :: 0 <= k < |w| ==> WordChar(w[k])
    }

    function Lower(w: string): string
    {
      if w == [] then [] else lower(w[0]) + Lower(w[1..])
    }

    function Upper(w: string): string
    {
      if w == [] then [] else upper(w[0]) + Upper(w[1..])
    }

    ghost predicate Valid()
    {
      && (forall c :: isAlpha(c) || isDigit(c) ==> isAlnum(c))
      && (forall c :: isSpace(c) ==> !isAlnum(c) && !IsSymbol(c))
      && (forall c :: IsSymbol(c) ==> !isAlnum(c))
      && isSpace(' ')
      && (forall d: nat :: d < 10 ==> isDigit(DigitChar(d)) && decimal(DigitChar(d)) == Some(d))
      && (forall c :: isDigit(c) ==> !isAlpha(c))
      && (forall w :: Keyword(w) ==> Word(w) && Lower(w) == w)
    }
  }

  /** ASCII punctuation, the underscore included. */
  predicate IsSymbol(c: char)
  {
    '!' <= c <= '/' || ':' <= c <= '@' || '[' <= c <= '`' || '{' <= c <= '~'
  }

  predicate Keyword(w: string)
  {
    w == "true" || w == "false" || w == "null" || w == "and" || w == "or" || w == "not"
  }

  function DigitChar(d: nat): (c: char)
    requires d < 10
  {
    "0123456789"[d]
  }

  lemma SymbolFacts(t: CharTable, c: char)
    requires t.Valid() && IsSymbol(c)
    ensures !t.isSpace(c) && !t.isAlnum(c) && !t.isDigit(c) && !t.isAlpha(c)
    ensures t.WordChar(c) <==> c == '_'
    ensures t.WordStart(c) <==> c == '_'
  {
  }

  lemma SpaceFacts(t: CharTable, c: char)
    requires t.Valid() && t.isSpace(c)
    ensures !t.WordChar(c) && !t.WordStart(c) && !t.isDigit(c) && !IsSymbol(c)
  {
  }

  lemma BlankFacts(t: CharTable)
    requires t.Valid()
    ensures t.isSpace(' ') && !t.WordChar(' ') && !t.isDigit(' ')
  {
    SpaceFacts(t, ' ');
  }

  lemma WordStartFacts(t: CharTable, c: char)
    requires t.Valid() && t.WordStart(c)
    ensures t.WordChar(c) && !t.isSpace(c) && !t.isDigit(c) && (c == '_' || !IsSymbol(c))
  {
    if c == '_' { SymbolFacts(t, c); }
  }

  /** Case is changed character by character. */
  lemma {:induction false} CaseEach(t: CharTable, before: string, c: char, after: string)
    ensures t.Upper(before + [c] + after) == t.Upper(before) + t.upper(c) + t.Upper(after)
    ensures t.Lower(before + [c] + after) == t.Lower(before) + t.lower(c) + t.Lower(after)
  {
    var w := before + [c] + after;
    if before == [] {
      assert w[1..] == after && w[0] == c;
    } else {
      CaseEach(t, before[1..], c, after);
      assert w[1..] == before[1..] + [c] + after && w[0] == before[0];
    }
  }
}
