/**
 Rewriting `@col` references for server-side evaluation: what is kept, what is
 replaced, and exactly when no reference is left behind.
 */
module BindRewrite {
  import opened Characters
  import opened ExpressionSyntax
  import opened Lexer
  import opened BindScan

  /** The attribute access that replaces a reference. */
  function Replacement(v: string, name: string): string
  {
    v + ".`" + name + "`"
  }

  /** The pieces written for `refs`, joined, from `last` on. */
  function Rewritten(s: string, v: string, refs: seq<Ref>, last: nat): string
    requires InOrder(s, refs, last)
    decreases |refs|
  {
    if refs == [] then s[last..]
    else s[last..refs[0].start] + Replacement(v, refs[0].name) + Rewritten(s, v, refs[1..], refs[0].end)
  }

  /** References do not overlap and each spells `@name`. */
  ghost predicate InOrder(s: string, refs: seq<Ref>, last: nat)
    decreases |refs|
  {
    && last <= |s|
    && (refs != [] ==>
          && last <= refs[0].start < refs[0].end <= |s|
          && s[refs[0].start..refs[0].end] == "@" + refs[0].name
          && InOrder(s, refs[1..], refs[0].end))
  }

  lemma {:induction false} ScanInOrder(t: CharTable, s: string, i: nat, last: nat)
    requires last <= i && last <= |s|
    ensures InOrder(s, ScanFrom(t, s, i), last)
    ensures forall r :: r in ScanFrom(t, s, i) ==> i <= r.start
    decreases |s| - i
  {
    if i < |s| {
      match StepAt(t, s, i) {
        case Move(next) =>
          ScanInOrder(t, s, next, last);
        case Found(ref) =>
          ScanInOrder(t, s, ref.end, ref.end);
          var refs := ScanFrom(t, s, i);
          assert refs[1..] == ScanFrom(t, s, ref.end);
          assert s[i..ref.end] == [s[i]] + s[i + 1..ref.end];
      }
    }
  }

  /** The pieces joined so far and the rest still to write make the whole. */
  ghost predicate Writing(s: string, v: string, refs: seq<Ref>, i: nat, last: nat, out: string)
  {
    && InOrder(s, refs, 0) && i <= |refs| && InOrder(s, refs[i..], last)
    && out + Rewritten(s, v, refs[i..], last) == Rewritten(s, v, refs, 0)
  }

  lemma WritingStep(s: string, v: string, refs: seq<Ref>, i: nat, last: nat, out: string)
    requires Writing(s, v, refs, i, last, out) && i < |refs|
    ensures last <= refs[i].start <= |s|
    ensures Writing(s, v, refs, i + 1, refs[i].end,
                    out + s[last..refs[i].start] + Replacement(v, refs[i].name))
  {
    var ref := refs[i];
    assert refs[i..][0] == ref && refs[i..][1..] == refs[i + 1..];
    var piece, rest := s[last..ref.start] + Replacement(v, ref.name), Rewritten(s, v, refs[i + 1..], ref.end);
    assert out + (piece + rest) == (out + piece) + rest;
    assert out + piece == out + s[last..ref.start] + Replacement(v, ref.name);
  }

  method RewriteBindParams(t: CharTable, expr: string, v: string) returns (out: string)
    ensures ScanInOrderOf(t, expr)
    ensures out == Rewritten(expr, v, Scan(t, expr), 0)
  {
    var refs := ScanBindParams(t, expr);
    ScanInOrder(t, expr, 0, 0);
    out := "";
    var last: nat := 0;
    assert refs[0..] == refs;
    for i := 0 to |refs|
      invariant Writing(expr, v, refs, i, last, out)
    {
      WritingStep(expr, v, refs, i, last, out);
      out := out + expr[last..refs[i].start] + Replacement(v, refs[i].name);
      last := refs[i].end;
    }
    out := out + expr[last..];
  }

  ghost predicate ScanInOrderOf(t: CharTable, s: string)
  {
    InOrder(s, Scan(t, s), 0)
  }

  // ----- what is kept

  /** The text outside the references. */
  function Gaps(s: string, refs: seq<Ref>, last: nat): seq<string>
    requires InOrder(s, refs, last)
    decreases |refs|
  {
    if refs == [] then [s[last..]] else [s[last..refs[0].start]] + Gaps(s, refs[1..], refs[0].end)
  }

  function Names(refs: seq<Ref>): seq<string>
  {
    seq(|refs|, k requires 0 <= k < |refs| => refs[k].name)
  }

  /** Gap, reference, gap, ..., gap; `show` writes a reference. */
  function Weave(gaps: seq<string>, names: seq<string>, show: string -> string): string
    requires |gaps| == |names| + 1
    decreases |names|
  {
    if names == [] then gaps[0] else gaps[0] + show(names[0]) + Weave(gaps[1..], names[1..], show)
  }

  /** Source and rewritten text are the same gaps woven with the two spellings
      of the same names: nothing outside a reference changes. */
  lemma {:induction false} RewriteKeepsGaps(s: string, v: string, refs: seq<Ref>, last: nat)
    requires InOrder(s, refs, last)
    ensures |Gaps(s, refs, last)| == |refs| + 1
    ensures s[last..] == Weave(Gaps(s, refs, last), Names(refs), n => "@" + n)
    ensures Rewritten(s, v, refs, last) == Weave(Gaps(s, refs, last), Names(refs), n => v + ".`" + n + "`")
    decreases |refs|
  {
    if refs != [] {
      RewriteKeepsGaps(s, v, refs[1..], refs[0].end);
      assert Gaps(s, refs, last)[1..] == Gaps(s, refs[1..], refs[0].end);
      assert Names(refs)[1..] == Names(refs[1..]) && Names(refs)[0] == refs[0].name;
      assert s[last..] == s[last..refs[0].start] + s[refs[0].start..refs[0].end] + s[refs[0].end..];
    }
  }

  // ----- what the rewritten text names

  predicate NoTick(s: string)
  {
    '`' !in s
  }

  /** Where a character first stands, `|s|` when nowhere. */
  function IndexOf(s: string, c: char): (i: nat)
    ensures i <= |s| && (i < |s| ==> s[i] == c) && c !in s[..i]
  {
    if s == [] || s[0] == c then 0 else 1 + IndexOf(s[1..], c)
  }

  /** The names quoted in backticks, read from the left. */
  function Quoted(s: string): seq<string>
    decreases |s|
  {
    var i := IndexOf(s, '`');
    if i == |s| then []
    else
      var rest := s[i + 1..];
      var j := IndexOf(rest, '`');
      if j == |rest| then [] else [rest[..j]] + Quoted(rest[j + 1..])
  }

  lemma {:induction false} TickAfter(p: string, rest: string)
    requires NoTick(p)
    ensures IndexOf(p + "`" + rest, '`') == |p|
  {
    var s := p + "`" + rest;
    if p != [] {
      TickAfter(p[1..], rest);
      assert s[1..] == p[1..] + "`" + rest;
    }
  }

  lemma SliceNoTick(s: string, i: nat, j: nat)
    requires NoTick(s) && i <= j <= |s|
    ensures NoTick(s[i..j])
  {
  }

  lemma QuotedFirst(p: string, name: string, rest: string)
    requires NoTick(p) && NoTick(name)
    ensures Quoted(p + "`" + name + "`" + rest) == [name] + Quoted(rest)
  {
    var s, behind := p + "`" + name + "`" + rest, name + "`" + rest;
    assert s == p + "`" + behind;
    TickAfter(p, behind);
    TickAfter(name, rest);
    assert s[|p| + 1..] == behind && behind[..|name|] == name && behind[|name| + 1..] == rest;
  }

  /** The rewritten text names the references, in order. */
  lemma {:induction false} RewriteNames(s: string, v: string, refs: seq<Ref>, last: nat)
    requires InOrder(s, refs, last) && NoTick(s) && NoTick(v)
    ensures Quoted(Rewritten(s, v, refs, last)) == Names(refs)
    decreases |refs|
  {
    hide Quoted, NoTick;
    if refs == [] {
      SliceNoTick(s, last, |s|);
      NothingQuoted(s[last..]);
    } else {
      var ref := refs[0];
      RewriteNames(s, v, refs[1..], ref.end);
      assert s[ref.start + 1..ref.end] == s[ref.start..ref.end][1..] == ref.name;
      SliceNoTick(s, last, ref.start);
      SliceNoTick(s, ref.start + 1, ref.end);
      PieceQuoted(s[last..ref.start], v, ref.name, Rewritten(s, v, refs[1..], ref.end));
      assert Names(refs) == [ref.name] + Names(refs[1..]);
    }
  }

  lemma NothingQuoted(s: string)
    requires NoTick(s)
    ensures Quoted(s) == []
  {
  }

  lemma PieceQuoted(gap: string, v: string, name: string, rest: string)
    requires NoTick(gap) && NoTick(v) && NoTick(name)
    ensures Quoted(gap + Replacement(v, name) + rest) == [name] + Quoted(rest)
  {
    PrefixNoTick(gap, v);
    hide Quoted, NoTick;
    var p := gap + v + ".";
    QuotedFirst(p, name, rest);
    Regrouped(gap, v, name, rest);
  }

  lemma PrefixNoTick(gap: string, v: string)
    requires NoTick(gap) && NoTick(v)
    ensures NoTick(gap + v + ".")
  {
  }

  lemma Regrouped(gap: string, v: string, name: string, rest: string)
    ensures gap + Replacement(v, name) + rest == gap + v + "." + "`" + name + "`" + rest
  {
  }

  // ----- what is left

  /** The length of the string literal `s` starts with (all of `s` if unclosed). */
  function LiteralLength(s: string): (n: nat)
    requires s != [] && IsQuote(s[0])
    ensures 1 <= n <= |s|
  {
    var j := QuoteEnd(s, 1, s[0]);
    if j < |s| then j + 1 else |s|
  }

  /** `s` starts with a reference. */
  predicate StartsRef(t: CharTable, s: string)
  {
    |s| >= 2 && s[0] == '@' && t.WordStart(s[1])
  }

  /** The names a scan of `s` finds, by suffixes instead of positions. */
  function CodeNames(t: CharTable, s: string): seq<string>
    decreases |s|
  {
    if s == [] then []
    else if IsQuote(s[0]) then CodeNames(t, s[LiteralLength(s)..])
    else if StartsRef(t, s) then [s[1..WordEnd(t, s, 1)]] + CodeNames(t, s[WordEnd(t, s, 1)..])
    else CodeNames(t, s[1..])
  }

  /** The rewriting of a suffix that starts outside string literals. */
  function RewriteCode(t: CharTable, v: string, s: string): string
    decreases |s|
  {
    if s == [] then []
    else if IsQuote(s[0]) then s[..LiteralLength(s)] + RewriteCode(t, v, s[LiteralLength(s)..])
    else if StartsRef(t, s) then
      Replacement(v, s[1..WordEnd(t, s, 1)]) + RewriteCode(t, v, s[WordEnd(t, s, 1)..])
    else [s[0]] + RewriteCode(t, v, s[1..])
  }

  /** Somewhere outside strings a reference directly follows another `@`, as in
      the collection bind `@@name` of the server's language. */
  predicate DoublesAt(t: CharTable, s: string)
    decreases |s|
  {
    if s == [] then false
    else if IsQuote(s[0]) then DoublesAt(t, s[LiteralLength(s)..])
    else if StartsRef(t, s) then DoublesAt(t, s[WordEnd(t, s, 1)..])
    else (s[0] == '@' && StartsRef(t, s[1..])) || DoublesAt(t, s[1..])
  }

  lemma {:induction false} CodeSkipsPlain(t: CharTable, p: string, s: string)
    requires forall k :: 0 <= k < |p| ==> Plain(p[k])
    ensures CodeNames(t, p + s) == CodeNames(t, s)
    decreases |p|
  {
    if p == [] {
      assert p + s == s;
    } else {
      assert (p + s)[1..] == p[1..] + s;
      CodeSkipsPlain(t, p[1..], s);
    }
  }

  /** Cutting text after a closing quote does not move the quote. */
  lemma {:induction false} QuoteEndPrefix(s: string, rest: string, j: nat, quote: char)
    requires QuoteEnd(s, j, quote) < |s|
    ensures QuoteEnd(s[..QuoteEnd(s, j, quote) + 1] + rest, j, quote) == QuoteEnd(s, j, quote)
    decreases |s| - j
  {
    var end := QuoteEnd(s, j, quote);
    var x := s[..end + 1] + rest;
    assert x[j] == s[j];
    if s[j] != quote {
      if s[j] == '\\' && j + 1 < |s| {
        QuoteEndPrefix(s, rest, j + 2, quote);
      } else {
        QuoteEndPrefix(s, rest, j + 1, quote);
      }
    }
  }

  lemma CodeSkipsLiteral(t: CharTable, s: string, rest: string)
    requires s != [] && IsQuote(s[0])
    requires LiteralLength(s) == |s| ==> rest == "" || QuoteEnd(s, 1, s[0]) < |s|
    ensures CodeNames(t, s[..LiteralLength(s)] + rest) == CodeNames(t, rest)
  {
    var n := LiteralLength(s);
    var x := s[..n] + rest;
    if QuoteEnd(s, 1, s[0]) < |s| {
      QuoteEndPrefix(s, rest, 1, s[0]);
      assert LiteralLength(x) == n && x[n..] == rest;
    } else {
      assert x == s && s[n..] == "" == rest;
    }
  }

  /** A name that can stand for the row variable. */
  ghost predicate RowVariable(t: CharTable, v: string)
  {
    t.Word(v)
  }

  lemma ReplacementPlain(t: CharTable, v: string, name: string)
    requires t.Valid() && RowVariable(t, v) && forall k :: 0 <= k < |name| ==> t.WordChar(name[k])
    ensures forall k :: 0 <= k < |Replacement(v, name)| ==> Plain(Replacement(v, name)[k])
    ensures Replacement(v, name)[0] == v[0]
  {
    forall k | 0 <= k < |v| ensures Plain(v[k]) {
      WordCharsPlain(t, v[k]);
    }
    forall k | 0 <= k < |name| ensures Plain(name[k]) {
      WordCharsPlain(t, name[k]);
    }
  }

  /** How a rewritten suffix begins: with a letter exactly if it was a reference
      or began with a letter itself. */
  lemma RewriteHead(t: CharTable, v: string, s: string)
    requires t.Valid() && RowVariable(t, v) && s != []
    ensures RewriteCode(t, v, s) != []
    ensures t.WordStart(RewriteCode(t, v, s)[0]) <==> StartsRef(t, s) || t.WordStart(s[0])
  {
    if IsQuote(s[0]) {
      assert RewriteCode(t, v, s)[0] == s[0];
    } else if StartsRef(t, s) {
      ReplacementPlain(t, v, s[1..WordEnd(t, s, 1)]);
      assert RewriteCode(t, v, s)[0] == v[0];
    }
  }

  /** The rewriting leaves no reference behind exactly when the text has no
      reference right behind another `@`. */
  lemma {:induction false} RewriteLeavesNone(t: CharTable, v: string, s: string)
    requires t.Valid() && RowVariable(t, v)
    ensures CodeNames(t, RewriteCode(t, v, s)) == [] <==> !DoublesAt(t, s)
    decreases |s|
  {
    if s == [] {
    } else if IsQuote(s[0]) {
      var n := LiteralLength(s);
      RewriteLeavesNone(t, v, s[n..]);
      CodeSkipsLiteral(t, s, RewriteCode(t, v, s[n..]));
    } else if StartsRef(t, s) {
      var j := WordEnd(t, s, 1);
      RewriteLeavesNone(t, v, s[j..]);
      ReplacementPlain(t, v, s[1..j]);
      CodeSkipsPlain(t, Replacement(v, s[1..j]), RewriteCode(t, v, s[j..]));
    } else {
      var rest := RewriteCode(t, v, s[1..]);
      RewriteLeavesNone(t, v, s[1..]);
      if s[0] == '@' {
        if s[1..] != [] {
          RewriteHead(t, v, s[1..]);
        }
        assert ([s[0]] + rest)[1..] == rest;
      } else {
        CodeSkipsPlain(t, [s[0]], rest);
      }
    }
  }

  // ----- suffixes and positions

  lemma {:induction false} QuoteEndShift(s: string, i: nat, j: nat, quote: char)
    requires i <= |s|
    ensures QuoteEnd(s, i + j, quote) == i + QuoteEnd(s[i..], j, quote)
    decreases |s| - j
  {
    if i + j < |s| && s[i + j] != quote {
      if s[i + j] == '\\' && i + j + 1 < |s| {
        QuoteEndShift(s, i, j + 2, quote);
      } else {
        QuoteEndShift(s, i, j + 1, quote);
      }
    }
  }

  lemma {:induction false} WordEndShift(t: CharTable, s: string, i: nat, j: nat)
    requires i + j <= |s|
    ensures WordEnd(t, s, i + j) == i + WordEnd(t, s[i..], j)
    decreases |s| - j
  {
    if i + j < |s| && t.WordChar(s[i + j]) {
      WordEndShift(t, s, i, j + 1);
    }
  }

  /** What the step at `i` does, told of the suffix `s[i..]`. */
  lemma StepOfSuffix(t: CharTable, s: string, i: nat)
    requires i < |s|
    ensures IsQuote(s[i]) ==> StepAt(t, s, i).Move?
    ensures IsQuote(s[i]) ==>
      i + LiteralLength(s[i..]) == if StepAt(t, s, i).next <= |s| then StepAt(t, s, i).next else |s|
    ensures StartsRef(t, s[i..]) <==> StepAt(t, s, i).Found?
    ensures StartsRef(t, s[i..]) ==>
      var j := WordEnd(t, s[i..], 1); StepAt(t, s, i) == Found(Ref(i, i + j, s[i..][1..j]))
    ensures !IsQuote(s[i]) && !StartsRef(t, s[i..]) ==> StepAt(t, s, i) == Move(i + 1)
  {
    if IsQuote(s[i]) {
      QuoteEndShift(s, i, 1, s[i]);
    } else if i + 1 < |s| {
      WordEndShift(t, s, i, 1);
      var j := WordEnd(t, s[i..], 1);
      assert s[i..][1..j] == s[i + 1..i + j];
    }
  }

  /** How far the step at `i` moves, never past the end. */
  function Advance(t: CharTable, s: string, i: nat): (n: nat)
    requires i < |s|
    ensures 0 < n && i + n <= |s|
  {
    var step := StepAt(t, s, i);
    if step.Found? then step.ref.end - i else if step.next <= |s| then step.next - i else |s| - i
  }

  lemma ScanAdvances(t: CharTable, s: string, i: nat)
    requires i < |s|
    ensures ScanFrom(t, s, i) == StepRefs(t, s, i) + ScanFrom(t, s, i + Advance(t, s, i))
  {
  }

  function StepRefs(t: CharTable, s: string, i: nat): (refs: seq<Ref>)
    requires i < |s|
    ensures forall r :: r in refs ==> r.start == i
  {
    if StepAt(t, s, i).Found? then [StepAt(t, s, i).ref] else []
  }

  /** The step at `i` and the first turn on the suffix `s[i..]` cover the same text. */
  lemma SuffixStep(t: CharTable, s: string, i: nat)
    requires i < |s|
    ensures var x, n, step := s[i..], Advance(t, s, i), StepAt(t, s, i);
      && x[0] == s[i] && x[n..] == s[i + n..] && x[..n] == s[i..i + n] && x[1..] == s[i + 1..]
      && (IsQuote(x[0]) ==> step.Move? && !StartsRef(t, x) && n == LiteralLength(x))
      && (StartsRef(t, x) ==> step.Found? && n == WordEnd(t, x, 1) && step.ref.name == x[1..n])
      && (!IsQuote(x[0]) && !StartsRef(t, x) ==> step.Move? && n == 1 && x[..n] == [s[i]])
  {
    StepOfSuffix(t, s, i);
    hide LiteralLength, WordEnd, StepAt;
  }

  /** One step of the suffix-wise functions at position `i`. */
  lemma SuffixAdvances(t: CharTable, v: string, s: string, i: nat)
    requires i < |s|
    ensures var n, step := Advance(t, s, i), StepAt(t, s, i);
      && CodeNames(t, s[i..]) == (if step.Found? then [step.ref.name] else []) + CodeNames(t, s[i + n..])
      && RewriteCode(t, v, s[i..]) ==
         (if step.Found? then Replacement(v, step.ref.name) else s[i..i + n]) + RewriteCode(t, v, s[i + n..])
      && (DoublesAt(t, s[i..]) <==>
          (step.Move? && s[i] == '@' && StartsRef(t, s[i + 1..])) || DoublesAt(t, s[i + n..]))
  {
    hide LiteralLength, WordEnd, StepAt, Advance;
    NamesAdvance(t, s, i);
    RewriteAdvance(t, v, s, i);
    DoublesAdvance(t, s, i);
    hide CodeNames, RewriteCode, DoublesAt;
  }

  lemma NamesAdvance(t: CharTable, s: string, i: nat)
    requires i < |s|
    ensures var n, step := Advance(t, s, i), StepAt(t, s, i);
      CodeNames(t, s[i..]) == (if step.Found? then [step.ref.name] else []) + CodeNames(t, s[i + n..])
  {
    hide LiteralLength, WordEnd, StepAt, Advance, StartsRef;
    SuffixStep(t, s, i);
  }

  lemma RewriteAdvance(t: CharTable, v: string, s: string, i: nat)
    requires i < |s|
    ensures var n, step := Advance(t, s, i), StepAt(t, s, i);
      RewriteCode(t, v, s[i..]) ==
        (if step.Found? then Replacement(v, step.ref.name) else s[i..i + n]) + RewriteCode(t, v, s[i + n..])
  {
    hide LiteralLength, WordEnd, StepAt, Advance, StartsRef, Replacement;
    SuffixStep(t, s, i);
  }

  lemma DoublesAdvance(t: CharTable, s: string, i: nat)
    requires i < |s|
    ensures var n, step := Advance(t, s, i), StepAt(t, s, i);
      DoublesAt(t, s[i..]) <==> (step.Move? && s[i] == '@' && StartsRef(t, s[i + 1..])) || DoublesAt(t, s[i + n..])
  {
    hide LiteralLength, WordEnd, StepAt, Advance, StartsRef;
    SuffixStep(t, s, i);
  }

  ghost predicate SameNames(t: CharTable, s: string, i: nat)
  {
    i <= |s| && Names(ScanFrom(t, s, i)) == CodeNames(t, s[i..])
  }

  lemma SameNamesStep(t: CharTable, s: string, i: nat)
    requires i < |s| && SameNames(t, s, i + Advance(t, s, i))
    ensures SameNames(t, s, i)
  {
    ScanAdvances(t, s, i);
    SuffixAdvances(t, "", s, i);
    if StepAt(t, s, i).Found? {
      NamesCons(StepAt(t, s, i).ref, ScanFrom(t, s, i + Advance(t, s, i)));
    }
  }

  /** Scanning positions and scanning suffixes find the same names. */
  lemma {:induction false} NamesOfScan(t: CharTable, s: string, i: nat)
    requires i <= |s|
    ensures SameNames(t, s, i)
    decreases |s| - i
  {
    if i < |s| {
      NamesOfScan(t, s, i + Advance(t, s, i));
      SameNamesStep(t, s, i);
    } else {
      assert ScanFrom(t, s, i) == [] && s[i..] == [];
    }
  }

  lemma NamesCons(ref: Ref, refs: seq<Ref>)
    ensures Names([ref] + refs) == [ref.name] + Names(refs)
  {
  }

  ghost predicate SameRewriting(t: CharTable, v: string, s: string, i: nat, last: nat)
  {
    && last <= i <= |s|
    && InOrder(s, ScanFrom(t, s, i), last)
    && Rewritten(s, v, ScanFrom(t, s, i), last) == s[last..i] + RewriteCode(t, v, s[i..])
  }

  lemma SameRewritingMove(t: CharTable, v: string, s: string, i: nat, last: nat)
    requires last <= i < |s| && StepAt(t, s, i).Move?
    requires SameRewriting(t, v, s, i + Advance(t, s, i), last)
    ensures SameRewriting(t, v, s, i, last)
  {
    hide StepAt, Advance, ScanFrom, RewriteCode, Rewritten, InOrder;
    var n := Advance(t, s, i);
    ScanMoves(t, s, i);
    CodeMoves(t, v, s, i);
    MoveText(s, v, ScanFrom(t, s, i + n), last, i, i + n, RewriteCode(t, v, s[i + n..]), RewriteCode(t, v, s[i..]));
  }

  lemma ScanMoves(t: CharTable, s: string, i: nat)
    requires i < |s| && StepAt(t, s, i).Move?
    ensures ScanFrom(t, s, i) == ScanFrom(t, s, i + Advance(t, s, i))
  {
  }

  lemma CodeMoves(t: CharTable, v: string, s: string, i: nat)
    requires i < |s| && StepAt(t, s, i).Move?
    ensures RewriteCode(t, v, s[i..])
         == s[i..i + Advance(t, s, i)] + RewriteCode(t, v, s[i + Advance(t, s, i)..])
  {
    SuffixAdvances(t, v, s, i);
  }

  /** Text copied up to `j` is text copied up to `i` and then `s[i..j]`. */
  lemma MoveText(s: string, v: string, refs: seq<Ref>, last: nat, i: nat, j: nat, tail: string, code: string)
    requires InOrder(s, refs, last) && last <= i <= j <= |s|
    requires Rewritten(s, v, refs, last) == s[last..j] + tail
    requires code == s[i..j] + tail
    ensures Rewritten(s, v, refs, last) == s[last..i] + code
  {
    assert s[last..j] + tail == s[last..i] + (s[i..j] + tail);
  }

  lemma SameRewritingFound(t: CharTable, v: string, s: string, i: nat, last: nat)
    requires last <= i < |s| && StepAt(t, s, i).Found?
    requires SameRewriting(t, v, s, i + Advance(t, s, i), i + Advance(t, s, i))
    ensures SameRewriting(t, v, s, i, last)
  {
    var n := Advance(t, s, i);
    SuffixAdvances(t, v, s, i);
    assert s[i + n..i + n] == [];
    RewrittenRef(t, v, s, i, last, i + n);
  }

  lemma SameRewritingEnd(t: CharTable, v: string, s: string, last: nat)
    requires last <= |s|
    ensures SameRewriting(t, v, s, |s|, last)
  {
    assert ScanFrom(t, s, |s|) == [] && s[last..|s|] + [] == s[last..];
  }

  /** Rewriting by positions and rewriting by suffixes write the same text. */
  lemma {:induction false} RewrittenIsCode(t: CharTable, v: string, s: string, i: nat, last: nat)
    requires last <= i <= |s|
    ensures SameRewriting(t, v, s, i, last)
    decreases |s| - i
  {
    hide SameRewriting, StepAt, Advance, ScanFrom, RewriteCode, Rewritten, InOrder;
    if i == |s| {
      SameRewritingEnd(t, v, s, last);
    } else if StepAt(t, s, i).Found? {
      RewrittenIsCode(t, v, s, i + Advance(t, s, i), i + Advance(t, s, i));
      SameRewritingFound(t, v, s, i, last);
    } else {
      RewrittenIsCode(t, v, s, i + Advance(t, s, i), last);
      SameRewritingMove(t, v, s, i, last);
    }
  }

  lemma RewrittenRef(t: CharTable, v: string, s: string, i: nat, last: nat, j: nat)
    requires last <= i < |s| && StepAt(t, s, i).Found? && StepAt(t, s, i).ref.end == j
    ensures InOrder(s, ScanFrom(t, s, i), last) && InOrder(s, ScanFrom(t, s, j), j)
    ensures Rewritten(s, v, ScanFrom(t, s, i), last)
         == s[last..i] + Replacement(v, StepAt(t, s, i).ref.name) + Rewritten(s, v, ScanFrom(t, s, j), j)
  {
    ScanInOrder(t, s, i, last);
    ScanInOrder(t, s, j, j);
    assert ScanFrom(t, s, i)[1..] == ScanFrom(t, s, j);
  }

  /** A reference of `refs` past `from` has another `@` right before it. */
  ghost predicate Doubled(s: string, refs: seq<Ref>, from: nat)
  {
    exists r :: r in refs && from < r.start <= |s| && s[r.start - 1] == '@'
  }

  ghost predicate SameDoubling(t: CharTable, s: string, i: nat)
  {
    i <= |s| && (DoublesAt(t, s[i..]) <==> Doubled(s, ScanFrom(t, s, i), i))
  }

  lemma SameDoublingStep(t: CharTable, s: string, i: nat)
    requires t.Valid() && i < |s| && SameDoubling(t, s, i + Advance(t, s, i))
    ensures SameDoubling(t, s, i)
  {
    SuffixAdvances(t, "", s, i);
    if StepAt(t, s, i).Found? || IsQuote(s[i]) {
      DoubledAfterToken(t, s, i);
    } else {
      DoubledAfterChar(t, s, i);
    }
  }

  lemma {:induction false} DoublesAtPositions(t: CharTable, s: string, i: nat)
    requires t.Valid() && i <= |s|
    ensures SameDoubling(t, s, i)
    decreases |s| - i
  {
    if i < |s| {
      DoublesAtPositions(t, s, i + Advance(t, s, i));
      SameDoublingStep(t, s, i);
    } else {
      assert ScanFrom(t, s, i) == [] && s[i..] == [];
    }
  }

  /** A string or a reference ends in no `@`. */
  lemma TokenEndsPlain(t: CharTable, s: string, i: nat)
    requires t.Valid() && i < |s| && (StepAt(t, s, i).Found? || IsQuote(s[i]))
    ensures var next := i + Advance(t, s, i); next < |s| ==> s[next - 1] != '@'
  {
    if StepAt(t, s, i).Found? {
      WordStartFacts(t, s[i + 1]);
      WordCharsPlain(t, s[StepAt(t, s, i).ref.end - 1]);
    }
  }

  lemma DoubledAfterToken(t: CharTable, s: string, i: nat)
    requires t.Valid() && i < |s| && (StepAt(t, s, i).Found? || IsQuote(s[i]))
    ensures Doubled(s, ScanFrom(t, s, i), i) <==>
            Doubled(s, ScanFrom(t, s, i + Advance(t, s, i)), i + Advance(t, s, i))
  {
    var next := i + Advance(t, s, i);
    ScanAdvances(t, s, i);
    ScanInOrder(t, s, next, next);
    TokenEndsPlain(t, s, i);
    DoubledSplit(s, StepRefs(t, s, i), ScanFrom(t, s, next), i, next);
  }

  /** References that start where scanning started, or right behind another
      character than `@`, do not count. */
  lemma DoubledSplit(s: string, first: seq<Ref>, rest: seq<Ref>, i: nat, next: nat)
    requires i < next <= |s|
    requires forall r :: r in first ==> r.start == i
    requires forall r :: r in rest ==> next <= r.start
    requires next < |s| ==> s[next - 1] != '@'
    requires InOrder(s, rest, next)
    ensures Doubled(s, first + rest, i) <==> Doubled(s, rest, next)
  {
    if Doubled(s, rest, next) {
      var r :| r in rest && next < r.start <= |s| && s[r.start - 1] == '@';
      assert r in first + rest;
    }
    if Doubled(s, first + rest, i) {
      var r :| r in first + rest && i < r.start <= |s| && s[r.start - 1] == '@';
      assert r in rest;
      StartsInside(s, rest, next, r);
    }
  }

  lemma {:induction false} StartsInside(s: string, refs: seq<Ref>, last: nat, r: Ref)
    requires InOrder(s, refs, last) && r in refs
    ensures r.start < |s|
    decreases |refs|
  {
    if r != refs[0] {
      StartsInside(s, refs[1..], refs[0].end, r);
    }
  }

  /** A reference is found at `j` itself exactly when the text there starts with one. */
  lemma FoundAtStart(t: CharTable, s: string, j: nat)
    requires j <= |s|
    ensures (exists r :: r in ScanFrom(t, s, j) && r.start == j) <==> StartsRef(t, s[j..])
  {
    if j < |s| {
      StepOfSuffix(t, s, j);
      hide WordEnd, LiteralLength;
      if StepAt(t, s, j).Found? {
        assert ScanFrom(t, s, j)[0] == StepAt(t, s, j).ref;
      } else {
        ScanInOrder(t, s, StepAt(t, s, j).next, j);
      }
    }
  }

  lemma DoubledAfterChar(t: CharTable, s: string, i: nat)
    requires i < |s| && StepAt(t, s, i) == Move(i + 1)
    ensures Doubled(s, ScanFrom(t, s, i), i) <==>
            (s[i] == '@' && StartsRef(t, s[i + 1..])) || Doubled(s, ScanFrom(t, s, i + 1), i + 1)
  {
    var refs := ScanFrom(t, s, i + 1);
    assert ScanFrom(t, s, i) == refs;
    ScanInOrder(t, s, i + 1, i + 1);
    FoundAtStart(t, s, i + 1);
    hide ScanFrom, StepAt, InOrder, StartsRef;
  }

  // ----- the claims

  /** No reference is left in the rewritten text exactly when none of the
      references found stands right behind an `@`. */
  lemma RewriteExact(t: CharTable, v: string, s: string)
    requires t.Valid() && RowVariable(t, v)
    ensures ScanInOrderOf(t, s)
    ensures Scan(t, Rewritten(s, v, Scan(t, s), 0)) == [] <==> !Doubled(s, Scan(t, s), 0)
  {
    RewrittenIsCode(t, v, s, 0, 0);
    var out := Rewritten(s, v, Scan(t, s), 0);
    assert s[0..] == s && out[0..] == out && s[0..0] + RewriteCode(t, v, s) == RewriteCode(t, v, s);
    NamesOfScan(t, out, 0);
    assert Scan(t, out) == [] <==> Names(Scan(t, out)) == [];
    RewriteLeavesNone(t, v, s);
    DoublesAtPositions(t, s, 0);
  }

  /** Text that the tokenizer accepts has no doubled `@`, so none is left. */
  lemma {:induction false} TokenizedNotDoubled(t: CharTable, s: string, i: nat)
    requires t.Valid() && i <= |s| && LexFrom(t, s, i).Ok?
    ensures !Doubled(s, ScanFrom(t, s, i), i)
    decreases |s| - i
  {
    if i < |s| {
      TokenizedNotDoubled(t, s, LexStep(t, s, i).next);
      TurnKeepsDoubled(t, s, i);
    }
  }

  lemma TurnKeepsDoubled(t: CharTable, s: string, i: nat)
    requires t.Valid() && i < |s| && !LexStep(t, s, i).Bad?
    ensures var next := LexStep(t, s, i).next;
      Doubled(s, ScanFrom(t, s, i), i) <==> Doubled(s, ScanFrom(t, s, next), next)
  {
    hide LexStep, ScanFrom, InOrder, Doubled;
    var next := LexStep(t, s, i).next;
    StepEndsPlain(t, s, i);
    ScanInOrder(t, s, next, next);
    TurnRefs(t, s, i);
    DoubledSplit(s, TurnRef(t, s, i), ScanFrom(t, s, next), i, next);
  }

  /** The reference a tokenizer turn passes, if any. */
  function TurnRef(t: CharTable, s: string, i: nat): seq<Ref>
    requires i < |s| && !LexStep(t, s, i).Bad?
  {
    var step := LexStep(t, s, i);
    if step.Emit? && step.tok.Bind? then [Ref(i, step.next, step.tok.name)] else []
  }

  lemma TurnRefs(t: CharTable, s: string, i: nat)
    requires t.Valid() && i < |s| && !LexStep(t, s, i).Bad?
    ensures ScanFrom(t, s, i) == TurnRef(t, s, i) + ScanFrom(t, s, LexStep(t, s, i).next)
  {
    StepsAgree(t, s, i);
  }

  lemma StepEndsPlain(t: CharTable, s: string, i: nat)
    requires t.Valid() && i < |s| && !LexStep(t, s, i).Bad?
    ensures s[LexStep(t, s, i).next - 1] != '@'
  {
    var c, step := s[i], LexStep(t, s, i);
    if IsQuote(c) {
      SymbolFacts(t, c);
      QuoteStep(t, s, i, c);
    } else if c == '@' {
      SymbolFacts(t, c);
      if i + 1 < |s| && t.WordStart(s[i + 1]) {
        BindStep(t, s, i);
        WordStartFacts(t, s[i + 1]);
        WordCharsPlain(t, s[step.next - 1]);
      }
    } else {
      PlainStepEnds(t, s, i);
    }
  }

  lemma PlainStepEnds(t: CharTable, s: string, i: nat)
    requires t.Valid() && i < |s| && Plain(s[i]) && !LexStep(t, s, i).Bad?
    ensures s[LexStep(t, s, i).next - 1] != '@'
  {
    var step := LexStep(t, s, i);
    if StartsNumber(t, s, i) && step == LexNumber(t, s, i) {
      RangePlain(t, s, i, step.next);
    } else if t.WordStart(s[i]) && step.next == WordEnd(t, s, i + 1) {
      RangePlain(t, s, i, step.next);
    } else {
      SymbolStepPlain(t, s, i);
    }
  }

  lemma RewriteCompiledText(t: CharTable, v: string, s: string)
    requires t.Valid() && RowVariable(t, v) && Lex(t, s).Ok?
    ensures ScanInOrderOf(t, s)
    ensures Scan(t, Rewritten(s, v, Scan(t, s), 0)) == []
  {
    TokenizedNotDoubled(t, s, 0);
    RewriteExact(t, v, s);
  }

  /** A collection bind of the server's language is not rewritten away: `@@x`
      becomes an `@` followed by the row variable, a reference again. */
  lemma DoubledBindSurvives(t: CharTable, v: string)
    requires t.Valid() && RowVariable(t, v) && t.isAlpha('x')
    ensures ScanInOrderOf(t, "@@x")
    ensures Scan(t, Rewritten("@@x", v, Scan(t, "@@x"), 0)) != []
  {
    var s := "@@x";
    SymbolFacts(t, '@');
    assert StepAt(t, s, 0) == Move(1);
    assert StepAt(t, s, 1).Found? && StepAt(t, s, 1).ref.start == 1;
    assert ScanFrom(t, s, 1)[0].start == 1;
    assert Scan(t, s)[0] in Scan(t, s);
    RewriteExact(t, v, s);
  }
}
