/**
 Texts and trees: a text is read as a tree exactly when it spells tokens that
 the grammar derives with that tree.
 */
module Reading {
  import opened Characters
  import opened ExpressionSyntax
  import opened Grammar
  import opened Lexer
  import opened Parser
  import opened Spelling

  /** The text `s` is a way to write `e`: any spelling, any spaces, any redundant parentheses. */
  ghost predicate Writes(t: CharTable, s: string, e: Expr)
  {
    exists placed :: SpellsFrom(t, s, 0, placed) && Derives(t, TERNARY, e, Tokens(placed))
  }

  /** The tokenizer and the parser. */
  function Read(t: CharTable, s: string): Result<Expr>
  {
    LexTerminated(t, s, 0);
    var toks :- Lex(t, s);
    Parse(t, toks)
  }

  lemma BeforeEnd(toks: seq<Placed>, placed: seq<Placed>, end: Placed)
    requires toks == placed + [end]
    ensures Between(toks, 0, |toks| - 1) == Tokens(placed)
  {
  }

  /** What a text that spells these tokens is read as. */
  lemma ReadSpelled(t: CharTable, s: string, placed: seq<Placed>, e: Expr)
    requires t.Valid() && SpellsFrom(t, s, 0, placed)
    ensures Lex(t, s) == Ok(placed + [Placed(Eof, |s|)])
    ensures Read(t, s) == Ok(e) <==> Derives(t, TERNARY, e, Tokens(placed))
  {
    var toks := placed + [Placed(Eof, |s|)];
    LexExactly(t, s, 0, placed);
    LexTerminated(t, s, 0);
    hide SpellsFrom, Derives, LexFrom, Parse, Terminated;
    BeforeEnd(toks, placed, Placed(Eof, |s|));
    ParseExactly(t, toks, e);
  }

  /** A text is read as a tree exactly when it is a way to write it. */
  lemma ReadExactly(t: CharTable, s: string, e: Expr)
    requires t.Valid()
    ensures Read(t, s) == Ok(e) <==> Writes(t, s, e)
  {
    hide SpellsFrom, Derives, LexFrom, Parse;
    if Read(t, s) == Ok(e) {
      LexTerminated(t, s, 0);
      LexEndsAt(t, s, 0);
      var toks := Lex(t, s).value;
      var placed := toks[..|toks| - 1];
      assert toks == placed + [Placed(Eof, |s|)];
      LexExactly(t, s, 0, placed);
      ReadSpelled(t, s, placed, e);
    }
    if Writes(t, s, e) {
      var placed :| SpellsFrom(t, s, 0, placed) && Derives(t, TERNARY, e, Tokens(placed));
      ReadSpelled(t, s, placed, e);
    }
  }

  /** The end-of-input token stands at the end of the text. */
  lemma {:induction false} LexEndsAt(t: CharTable, s: string, i: nat)
    requires i <= |s| && LexFrom(t, s, i).Ok?
    ensures var toks := LexFrom(t, s, i).value; toks != [] && toks[|toks| - 1] == Placed(Eof, |s|)
    decreases |s| - i
  {
    hide LexStep;
    if i < |s| {
      LexEndsAt(t, s, LexStep(t, s, i).next);
    }
  }

  /** A text writes at most one tree. */
  lemma Unambiguous(t: CharTable, s: string, e: Expr, f: Expr)
    requires t.Valid() && Writes(t, s, e) && Writes(t, s, f)
    ensures e == f
  {
    hide Writes, Read;
    ReadExactly(t, s, e);
    ReadExactly(t, s, f);
  }
}
