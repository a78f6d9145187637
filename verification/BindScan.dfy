/**
 The second reader of expression text: the quote-aware scan for `@name`
 references, which never looks at tokens, and the rewriting built on it.
 */
module BindScan {
  import opened Characters
  import opened ExpressionSyntax
  import opened Lexer
  import ParserFacts

  /** A reference: `@` at `start`, its name up to `end`. */
  datatype Ref = Ref(start: nat, end: nat, name: string)

  // ----- the scan

  /** Where the scan resumes after position `i`, and the reference found there. */
  datatype ScanStep = Found(ref: Ref) | Move(next: nat)

  function StepAt(t: CharTable, s: string, i: nat): (r: ScanStep)
    requires i < |s|
    ensures r.Move? ==> i < r.next
    ensures r.Found? ==> r.ref.start == i < r.ref.end <= |s| && r.ref.name == s[i + 1..r.ref.end]
  {
    if IsQuote(s[i]) then Move(QuoteEnd(s, i + 1, s[i]) + 1)
    else if s[i] == '@' && i + 1 < |s| && t.WordStart(s[i + 1]) then
      var j := WordEnd(t, s, i + 1);
      Found(Ref(i, j, s[i + 1..j]))
    else Move(i + 1)
  }

  function ScanFrom(t: CharTable, s: string, i: nat): seq<Ref>
    decreases |s| - i
  {
    if i >= |s| then []
    else match StepAt(t, s, i)
      case Move(next) => ScanFrom(t, s, next)
      case Found(ref) => [ref] + ScanFrom(t, s, ref.end)
  }

  function Scan(t: CharTable, s: string): seq<Ref>
  {
    ScanFrom(t, s, 0)
  }

  /** The scan's loops; the references come out in text order. */
  method ScanBindParams(t: CharTable, expr: string) returns (refs: seq<Ref>)
    ensures refs == Scan(t, expr)
  {
    refs := [];
    var i := 0;
    while i < |expr|
      invariant Scanned(t, expr, refs, i)
      decreases |expr| - i
    {
      ScannedNext(t, expr, refs, i);
      var c := expr[i];
      if IsQuote(c) {
        var j := SkipString(expr, i + 1, c);
        i := j + 1;
      } else if c == '@' && i + 1 < |expr| && t.WordStart(expr[i + 1]) {
        var j := ReadWord(t, expr, i + 1);
        refs := refs + [Ref(i, j, expr[i + 1..j])];
        i := j;
      } else {
        i := i + 1;
      }
    }
  }

  /** The references found so far and those from `i` on make the whole. */
  ghost predicate Scanned(t: CharTable, s: string, refs: seq<Ref>, i: nat)
  {
    refs + ScanFrom(t, s, i) == Scan(t, s)
  }

  lemma ScannedNext(t: CharTable, s: string, refs: seq<Ref>, i: nat)
    requires i < |s| && Scanned(t, s, refs, i)
    ensures StepAt(t, s, i).Move? ==> Scanned(t, s, refs, StepAt(t, s, i).next)
    ensures StepAt(t, s, i).Found? ==> Scanned(t, s, refs + [StepAt(t, s, i).ref], StepAt(t, s, i).ref.end)
  {
    hide StepAt, Scan;
    if StepAt(t, s, i).Found? {
      var ref := StepAt(t, s, i).ref;
      assert refs + ([ref] + ScanFrom(t, s, ref.end)) == (refs + [ref]) + ScanFrom(t, s, ref.end);
    }
  }

  method SkipString(s: string, start: nat, quote: char) returns (j: nat)
    ensures j == QuoteEnd(s, start, quote)
  {
    j := start;
    while j < |s| && s[j] != quote
      invariant start <= j && QuoteEnd(s, j, quote) == QuoteEnd(s, start, quote)
      decreases |s| - j
    {
      if s[j] == '\\' && j + 1 < |s| {
        j := j + 2;
      } else {
        j := j + 1;
      }
    }
  }

  // ----- the scan sees what the tokenizer sees

  /** The BIND tokens as references. */
  function TokenRefs(toks: seq<Placed>): seq<Ref>
  {
    if toks == [] then []
    else
      var rest := TokenRefs(toks[1..]);
      match toks[0].tok
      case Bind(name) => [Ref(toks[0].pos, toks[0].pos + 1 + |name|, name)] + rest
      case _ => rest
  }

  /** A character that neither quotes nor marks a reference. */
  predicate Plain(c: char) { !IsQuote(c) && c != '@' }

  lemma {:induction false} ScanSkipsPlain(t: CharTable, s: string, i: nat, j: nat)
    requires i <= j <= |s| && forall m :: i <= m < j ==> Plain(s[m])
    ensures ScanFrom(t, s, i) == ScanFrom(t, s, j)
    decreases j - i
  {
    if i < j {
      ScanSkipsPlain(t, s, i + 1, j);
    }
  }

  lemma WordCharsPlain(t: CharTable, c: char)
    requires t.Valid() && (t.WordChar(c) || t.WordStart(c) || t.isDigit(c) || t.isSpace(c) || c == '.')
    ensures Plain(c)
  {
    if IsSymbol(c) { SymbolFacts(t, c); }
  }

  lemma RangePlain(t: CharTable, s: string, i: nat, j: nat)
    requires t.Valid() && i <= j <= |s|
    requires forall m :: i <= m < j ==> t.WordChar(s[m]) || t.WordStart(s[m]) || t.isDigit(s[m]) || s[m] == '.'
    ensures forall m :: i <= m < j ==> Plain(s[m])
  {
    forall m | i <= m < j ensures Plain(s[m]) {
      WordCharsPlain(t, s[m]);
    }
  }

  /** The scan finds what a tokenizer turn emits, and otherwise passes over it. */
  ghost predicate InStep(t: CharTable, s: string, i: nat, step: Step)
    requires i < |s| && !step.Bad?
  {
    if step.Emit? && step.tok.Bind?
    then StepAt(t, s, i) == Found(Ref(i, step.next, step.tok.name)) && step.next == i + 1 + |step.tok.name|
    else ScanFrom(t, s, i) == ScanFrom(t, s, step.next)
  }

  /** One tokenizer turn and the scan move over the same characters. */
  lemma StepsAgree(t: CharTable, s: string, i: nat)
    requires t.Valid() && i < |s| && !LexStep(t, s, i).Bad?
    ensures InStep(t, s, i, LexStep(t, s, i))
  {
    var c, step := s[i], LexStep(t, s, i);
    if c == '@' || IsQuote(c) {
      MarkedStepsAgree(t, s, i);
    } else if StartsNumber(t, s, i) && step == LexNumber(t, s, i) {
      RangePlain(t, s, i, step.next);
      ScanSkipsPlain(t, s, i, step.next);
    } else if t.WordStart(c) && step.next == WordEnd(t, s, i + 1) {
      RangePlain(t, s, i, step.next);
      ScanSkipsPlain(t, s, i, step.next);
    } else {
      SymbolStepPlain(t, s, i);
      ScanSkipsPlain(t, s, i, step.next);
    }
  }

  lemma MarkedStepsAgree(t: CharTable, s: string, i: nat)
    requires t.Valid() && i < |s| && !Plain(s[i]) && !LexStep(t, s, i).Bad?
    ensures InStep(t, s, i, LexStep(t, s, i))
  {
    SymbolFacts(t, s[i]);
    if s[i] != '@' {
      QuoteStep(t, s, i, s[i]);
      hide LexStep;
    } else if i + 1 < |s| && t.WordStart(s[i + 1]) {
      BindStep(t, s, i);
      hide LexStep;
    }
  }

  /** Spaces and operators hold no quote and no `@`. */
  lemma SymbolStepPlain(t: CharTable, s: string, i: nat)
    requires i < |s| && Plain(s[i]) && !LexStep(t, s, i).Bad?
    requires !(StartsNumber(t, s, i) && LexStep(t, s, i) == LexNumber(t, s, i))
    requires !(t.WordStart(s[i]) && LexStep(t, s, i).next == WordEnd(t, s, i + 1))
    ensures forall m :: i <= m < LexStep(t, s, i).next ==> Plain(s[m])
    ensures !(LexStep(t, s, i).Emit? && LexStep(t, s, i).tok.Bind?)
  {
  }

  /** For text that tokenizes, the scan finds exactly the BIND tokens. */
  lemma {:induction false} ScanIsBindTokens(t: CharTable, s: string, i: nat)
    requires t.Valid() && i <= |s| && LexFrom(t, s, i).Ok?
    ensures ScanFrom(t, s, i) == TokenRefs(LexFrom(t, s, i).value)
    decreases |s| - i
  {
    hide LexStep;
    if i < |s| {
      StepsAgree(t, s, i);
      var step := LexStep(t, s, i);
      ScanIsBindTokens(t, s, step.next);
      if step.Emit? {
        TokenRefsCons(Placed(step.tok, i), LexFrom(t, s, step.next).value);
      }
    }
  }

  lemma TokenRefsCons(p: Placed, rest: seq<Placed>)
    ensures TokenRefs([p] + rest) ==
      if p.tok.Bind? then [Ref(p.pos, p.pos + 1 + |p.tok.name|, p.tok.name)] + TokenRefs(rest) else TokenRefs(rest)
  {
    assert ([p] + rest)[1..] == rest;
  }

  function RefNames(refs: seq<Ref>): set<string>
  {
    set r | r in refs :: r.name
  }

  lemma {:induction false} TokenRefNames(toks: seq<Placed>)
    ensures RefNames(TokenRefs(toks)) == ParserFacts.BindNames(toks, 0, |toks|)
  {
    if toks != [] {
      TokenRefNames(toks[1..]);
      BindNamesFromTail(toks, |toks|);
      var rest := TokenRefs(toks[1..]);
      if toks[0].tok.Bind? {
        var ref := Ref(toks[0].pos, toks[0].pos + 1 + |toks[0].tok.name|, toks[0].tok.name);
        assert RefNames([ref] + rest) == {ref.name} + RefNames(rest);
      }
    }
  }

  lemma {:induction false} BindNamesFromTail(toks: seq<Placed>, j: nat)
    requires 1 <= j <= |toks|
    ensures ParserFacts.BindNames(toks, 0, j)
         == (if toks[0].tok.Bind? then {toks[0].tok.name} else {}) + ParserFacts.BindNames(toks[1..], 0, j - 1)
  {
    if j > 1 {
      BindNamesFromTail(toks, j - 1);
      assert toks[1..][j - 2] == toks[j - 1];
    } else {
      assert ParserFacts.BindNames(toks, 0, 0) == {};
    }
  }

  /** Distinct names in the order the text first uses them. */
  method ExtractBindReferences(t: CharTable, expr: string) returns (names: seq<string>)
    ensures forall n :: n in names <==> n in RefNames(Scan(t, expr))
    ensures forall i, j :: 0 <= i < j < |names| ==> names[i] != names[j]
    ensures forall i, j :: 0 <= i < j < |names| ==> UsedBefore(Scan(t, expr), names[i], names[j])
    ensures names == FirstUses(Scan(t, expr))
  {
    var refs := ScanBindParams(t, expr);
    names := [];
    for i := 0 to |refs|
      invariant names == FirstUses(refs[..i])
    {
      assert refs[..i + 1][..i] == refs[..i];
      if refs[i].name !in names {
        names := names + [refs[i].name];
      }
    }
    assert refs[..|refs|] == refs;
    FirstUsesFacts(refs);
  }

  function FirstUses(refs: seq<Ref>): seq<string>
  {
    if refs == [] then []
    else
      var before, name := FirstUses(refs[..|refs| - 1]), refs[|refs| - 1].name;
      if name in before then before else before + [name]
  }

  lemma {:induction false} FirstUsesFacts(refs: seq<Ref>)
    ensures forall n :: n in FirstUses(refs) <==> n in RefNames(refs)
    ensures forall i, j :: 0 <= i < j < |FirstUses(refs)| ==> FirstUses(refs)[i] != FirstUses(refs)[j]
    ensures forall i, j :: 0 <= i < j < |FirstUses(refs)| ==> UsedBefore(refs, FirstUses(refs)[i], FirstUses(refs)[j])
  {
    if refs != [] {
      var before, last := refs[..|refs| - 1], refs[|refs| - 1];
      FirstUsesFacts(before);
      assert refs == before + [last];
      assert RefNames(refs) == RefNames(before) + {last.name};
      hide RefNames, UsedBefore;
      forall i, j | 0 <= i < j < |FirstUses(refs)|
        ensures UsedBefore(refs, FirstUses(refs)[i], FirstUses(refs)[j])
      {
        UsedBeforeMore(before, last, FirstUses(refs)[i], FirstUses(refs)[j]);
      }
    }
  }

  /** `a` is used before the first use of `b`. */
  ghost predicate UsedBefore(refs: seq<Ref>, a: string, b: string)
  {
    exists k :: 0 <= k < |refs| && refs[k].name == a && forall m :: 0 <= m <= k ==> refs[m].name != b
  }

  lemma UsedBeforeMore(refs: seq<Ref>, last: Ref, a: string, b: string)
    requires a != b
    ensures UsedBefore(refs, a, b) || (a in RefNames(refs) && b !in RefNames(refs)) ==> UsedBefore(refs + [last], a, b)
  {
    if UsedBefore(refs, a, b) {
      var k :| 0 <= k < |refs| && refs[k].name == a && forall m :: 0 <= m <= k ==> refs[m].name != b;
      assert (refs + [last])[k].name == a;
    }
  }

  // ----- which positions are references, character by character

  /** Outside strings, inside one, or behind a backslash inside one. */
  datatype Mode = Code | Inside(quote: char) | Escaping(quote: char)

  function After(m: Mode, c: char): Mode
  {
    match m
    case Code => if c == '"' || c == '\'' then Inside(c) else Code
    case Inside(q) => if c == q then Code else if c == '\\' then Escaping(q) else m
    case Escaping(q) => Inside(q)
  }

  function ModeAt(s: string, i: nat): Mode
    requires i <= |s|
  {
    if i == 0 then Code else After(ModeAt(s, i - 1), s[i - 1])
  }

  /** An `@` before a letter or underscore, outside strings. */
  predicate RefersAt(t: CharTable, s: string, i: nat)
  {
    i + 1 < |s| && s[i] == '@' && t.WordStart(s[i + 1]) && ModeAt(s, i) == Code
  }

  lemma {:induction false} ModeInString(s: string, j: nat, quote: char)
    requires j <= |s| && ModeAt(s, j) == Inside(quote)
    ensures var e := QuoteEnd(s, j, quote);
      && (forall k :: j <= k <= e && k < |s| ==> ModeAt(s, k) != Code)
      && (e < |s| ==> ModeAt(s, e + 1) == Code)
    decreases |s| - j
  {
    if j < |s| && s[j] != quote {
      if s[j] == '\\' && j + 1 < |s| {
        assert ModeAt(s, j + 1) == Escaping(quote) && ModeAt(s, j + 2) == Inside(quote);
        ModeInString(s, j + 2, quote);
      } else if s[j] != '\\' {
        assert ModeAt(s, j + 1) == Inside(quote);
        ModeInString(s, j + 1, quote);
      }
    }
  }

  lemma {:induction false} ModeInPlain(s: string, i: nat, j: nat)
    requires i <= j <= |s| && ModeAt(s, i) == Code && forall m :: i <= m < j ==> !IsQuote(s[m])
    ensures ModeAt(s, j) == Code
    decreases j
  {
    if i < j {
      ModeInPlain(s, i, j - 1);
    }
  }

  ghost predicate Marks(refs: seq<Ref>, i: nat)
  {
    exists r :: r in refs && r.start == i
  }

  /** From `i` on, the references found are exactly the positions marked. */
  ghost predicate FindsAll(t: CharTable, s: string, i: nat)
  {
    forall k :: i <= k < |s| ==> (Marks(ScanFrom(t, s, i), k) <==> RefersAt(t, s, k))
  }

  lemma {:induction false} ScanFinds(t: CharTable, s: string, i: nat)
    requires t.Valid() && (i < |s| ==> ModeAt(s, i) == Code)
    ensures FindsAll(t, s, i)
    ensures forall r :: r in ScanFrom(t, s, i) ==> i <= r.start < |s|
    decreases |s| - i
  {
    if i < |s| {
      match StepAt(t, s, i) {
        case Move(next) =>
          MovedOver(t, s, i, next);
          ScanFinds(t, s, next);
        case Found(ref) =>
          FoundOver(t, s, i, ref);
          ScanFinds(t, s, ref.end);
          FoundMore(t, s, ref);
      }
    }
  }

  lemma MovedOver(t: CharTable, s: string, i: nat, next: nat)
    requires i < |s| && ModeAt(s, i) == Code && StepAt(t, s, i) == Move(next)
    ensures next < |s| ==> ModeAt(s, next) == Code
    ensures forall k :: i <= k < next && k < |s| ==> !RefersAt(t, s, k)
  {
    if IsQuote(s[i]) {
      assert ModeAt(s, i + 1) == Inside(s[i]);
      ModeInString(s, i + 1, s[i]);
    } else {
      assert ModeAt(s, i + 1) == Code;
    }
  }

  lemma FoundOver(t: CharTable, s: string, i: nat, ref: Ref)
    requires t.Valid() && i < |s| && ModeAt(s, i) == Code && StepAt(t, s, i) == Found(ref)
    ensures ref.start == i && RefersAt(t, s, i) && ModeAt(s, ref.end) == Code
    ensures forall k :: i < k < ref.end ==> !RefersAt(t, s, k)
  {
    RangePlain(t, s, i + 1, ref.end);
    ModeInPlain(s, i, ref.end);
  }

  lemma FoundMore(t: CharTable, s: string, ref: Ref)
    requires ref.start < |s| && StepAt(t, s, ref.start) == Found(ref)
    requires RefersAt(t, s, ref.start) && forall k :: ref.start < k < ref.end ==> !RefersAt(t, s, k)
    requires FindsAll(t, s, ref.end)
    requires forall r :: r in ScanFrom(t, s, ref.end) ==> ref.end <= r.start < |s|
    ensures FindsAll(t, s, ref.start)
    ensures forall r :: r in ScanFrom(t, s, ref.start) ==> ref.start <= r.start < |s|
  {
    var rest := ScanFrom(t, s, ref.end);
    assert ScanFrom(t, s, ref.start) == [ref] + rest;
    hide ScanFrom;
    forall k | ref.start <= k < |s| ensures Marks([ref] + rest, k) <==> RefersAt(t, s, k) {
      assert Marks([ref] + rest, k) <==> k == ref.start || Marks(rest, k);
    }
  }

  /** In any text, the references found are exactly the `@` before a letter outside strings,
      each with the longest name that follows. */
  lemma ScanExactly(t: CharTable, s: string, i: nat)
    requires t.Valid() && i < |s|
    ensures Marks(Scan(t, s), i) <==> RefersAt(t, s, i)
  {
    ScanFinds(t, s, 0);
  }

  /** The name of a reference: the longest word behind its `@`. */
  lemma {:induction false} NamesLongest(t: CharTable, s: string, i: nat, r: Ref)
    requires t.Valid() && r in ScanFrom(t, s, i)
    ensures r.start + 1 < r.end <= |s| && r.name == s[r.start + 1..r.end] && t.Word(r.name)
    ensures r.end < |s| ==> !t.WordChar(s[r.end])
    decreases |s| - i
  {
    match StepAt(t, s, i) {
      case Move(next) => NamesLongest(t, s, next, r);
      case Found(ref) =>
        if r != ref {
          NamesLongest(t, s, ref.end, r);
        } else {
          WordStartFacts(t, s[i + 1]);
        }
    }
  }
}
