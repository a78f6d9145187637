/**
 Asking about every part of a change before it happens (src/r2g/governed.py).
 What the gateway answers is arbitrary.
 */
module Governance {
  import Names
  import opened MappingChanges

  datatype Decision = Decision(permitted: bool, reason: string)

  /** One part refused on one class, with why. */
  datatype Refusal = Refusal(item: Item, term: Value, reason: string)

  datatype Outcome =
    | Permitted(decisions: map<Value, Decision>)
    | Refused(refusals: seq<Refusal>)

  type Decisions = map<Value, Decision>

  /** The refused pairs of one part, in order. */
  function RefusedOf(item: Item, terms: seq<Value>, decisions: Decisions): seq<Refusal>
    requires forall t :: t in terms ==> t in decisions
  {
    if terms == [] then []
    else
      var t := terms[|terms| - 1];
      RefusedOf(item, terms[..|terms| - 1], decisions)
      + (if decisions[t].permitted then [] else [Refusal(item, t, decisions[t].reason)])
  }

  ghost predicate Covers(decisions: Decisions, items: seq<Item>)
  {
    forall i, t :: 0 <= i < |items| && t in items[i].terms ==> t in decisions
  }

  ghost function RefusedAll(items: seq<Item>, decisions: Decisions): seq<Refusal>
    requires Covers(decisions, items)
  {
    if items == [] then []
    else RefusedAll(items[..|items| - 1], decisions)
         + RefusedOf(items[|items| - 1], items[|items| - 1].terms, decisions)
  }

  lemma {:induction false} RefusedOfExact(item: Item, terms: seq<Value>, decisions: Decisions, r: Refusal)
    requires forall t :: t in terms ==> t in decisions
    ensures r in RefusedOf(item, terms, decisions) <==>
      r.item == item && r.term in terms && !decisions[r.term].permitted && decisions[r.term].reason == r.reason
  {
    if terms != [] {
      RefusedOfExact(item, terms[..|terms| - 1], decisions, r);
      assert terms == terms[..|terms| - 1] + [terms[|terms| - 1]];
    }
  }

  /** The refusals are exactly the denied pairs of a part and a class of it. */
  lemma {:induction false} RefusedExact(items: seq<Item>, decisions: Decisions, r: Refusal)
    requires Covers(decisions, items)
    ensures r in RefusedAll(items, decisions) <==>
      r.item in items && r.term in r.item.terms && !decisions[r.term].permitted && decisions[r.term].reason == r.reason
  {
    if items != [] {
      var last := items[|items| - 1];
      RefusedExact(items[..|items| - 1], decisions, r);
      RefusedOfExact(last, last.terms, decisions, r);
      assert items == items[..|items| - 1] + [last];
    }
  }

  /** Nothing is refused exactly when every part is permitted on every class that governs it. */
  lemma PermittedExactly(items: seq<Item>, decisions: Decisions)
    requires Covers(decisions, items)
    ensures RefusedAll(items, decisions) == [] <==>
      forall i, t :: 0 <= i < |items| && t in items[i].terms ==> decisions[t].permitted
  {
    if i, t :| 0 <= i < |items| && t in items[i].terms && !decisions[t].permitted {
      RefusedExact(items, decisions, Refusal(items[i], t, decisions[t].reason));
    }
    if RefusedAll(items, decisions) != [] {
      var r := RefusedAll(items, decisions)[0];
      RefusedExact(items, decisions, r);
    }
  }

  /** What the control plane is told: a question and its answer, or a refusal for the history. */
  datatype Event = Asked(term: Value, answer: Decision) | Sent(refusal: Refusal)

  /** Everything the control plane is told, in order. */
  class Log {
    var events: seq<Event>

    constructor ()
      ensures events == []
    {
      events := [];
    }
  }

  /** The control plane's policy: it may answer anything, and is seen to be asked. */
  class Gateway {
    const log: Log

    constructor (log: Log)
      ensures this.log == log
    {
      this.log := log;
    }

    method Decide(term: Value) returns (d: Decision)
      modifies log
      ensures log.events == old(log.events) + [Asked(term, d)]
    {
      d := *;
      log.events := log.events + [Asked(term, d)];
    }
  }

  /** The history the refusals are sent to. */
  class History {
    const log: Log

    constructor (log: Log)
      ensures this.log == log
    {
      this.log := log;
    }

    method Send(r: Refusal)
      modifies log
      ensures log.events == old(log.events) + [Sent(r)]
    {
      log.events := log.events + [Sent(r)];
    }
  }

  /** Asked so far: each class of `decisions` once, in this order. */
  ghost predicate AskedOnce(order: seq<Value>, decisions: Decisions)
  {
    Names.NoDuplicates(order) && forall t :: t in order <==> t in decisions
  }

  /** The questions in this order, with these answers. */
  ghost function Asks(order: seq<Value>, decisions: Decisions): seq<Event>
    requires forall t :: t in order ==> t in decisions
  {
    seq(|order|, i requires 0 <= i < |order| => Asked(order[i], decisions[order[i]]))
  }

  ghost function Sends(refusals: seq<Refusal>): seq<Event>
  {
    seq(|refusals|, i requires 0 <= i < |refusals| => Sent(refusals[i]))
  }

  /** `govern`: every question is asked, once, before anything is recorded; the
      change is permitted only if every answer is, and otherwise exactly the denied
      pairs are recorded. */
  method Govern(gateway: Gateway, history: History, items: seq<Item>)
    returns (outcome: Outcome, ghost decisions: Decisions, ghost order: seq<Value>)
    requires gateway.log == history.log
    modifies gateway.log
    ensures AskedOnce(order, decisions)
    ensures gateway.log.events == old(gateway.log.events) + Asks(order, decisions)
                                  + (if outcome.Refused? then Sends(outcome.refusals) else [])
    ensures forall t :: t in decisions <==> exists i :: 0 <= i < |items| && t in items[i].terms
    ensures Covers(decisions, items)
    ensures outcome.Permitted? <==>
      forall i, t :: 0 <= i < |items| && t in items[i].terms ==> decisions[t].permitted
    ensures outcome.Permitted? ==> outcome.decisions == decisions
    ensures outcome.Refused? ==> outcome.refusals == RefusedAll(items, decisions)
  {
    var known: Decisions := map[];
    var refused: seq<Refusal> := [];
    order := [];
    for i := 0 to |items|
      invariant AskedOnce(order, known) && gateway.log.events == old(gateway.log.events) + Asks(order, known)
      invariant Answered(items, i, known, refused)
    {
      known, refused, order := AskItem(gateway, items, i, known, refused, order, old(gateway.log.events));
    }
    assert items[..|items|] == items;
    decisions := known;
    PermittedExactly(items, decisions);
    SendAll(history, refused);
    outcome := if refused == [] then Permitted(known) else Refused(refused);
  }

  method SendAll(history: History, refused: seq<Refusal>)
    modifies history.log
    ensures history.log.events == old(history.log.events) + Sends(refused)
  {
    for i := 0 to |refused|
      invariant history.log.events == old(history.log.events) + Sends(refused[..i])
    {
      assert Sends(refused[..i + 1]) == Sends(refused[..i]) + [Sent(refused[i])];
      history.Send(refused[i]);
    }
    assert refused[..|refused|] == refused;
  }

  /** The first `i` parts have been asked about. */
  ghost predicate Answered(items: seq<Item>, i: nat, known: Decisions, refused: seq<Refusal>)
    requires i <= |items|
  {
    && Covers(known, items[..i])
    && refused == RefusedAll(items[..i], known)
    && (forall t :: t in known ==> exists k :: 0 <= k < i && t in items[k].terms)
  }

  /** The first `j` classes of a part have been asked about, after `before`. */
  ghost predicate TermsAnswered(item: Item, j: nat, before: Decisions, refusedBefore: seq<Refusal>,
                                known: Decisions, refused: seq<Refusal>)
    requires j <= |item.terms|
  {
    && (forall t :: t in before ==> t in known && known[t] == before[t])
    && (forall t :: t in known ==> t in before || t in item.terms)
    && (forall t :: t in item.terms[..j] ==> t in known)
    && refused == refusedBefore + RefusedOf(item, item.terms[..j], known)
  }

  lemma TermsAnsweredNext(item: Item, j: nat, before: Decisions, refusedBefore: seq<Refusal>,
                          was: Decisions, known: Decisions, refused: seq<Refusal>)
    requires j < |item.terms| && TermsAnswered(item, j, before, refusedBefore, was, refused)
    requires item.terms[j] in known && known == was[item.terms[j] := known[item.terms[j]]]
    requires item.terms[j] in was ==> known == was
    ensures var t := item.terms[j];
      var more := if known[t].permitted then [] else [Refusal(item, t, known[t].reason)];
      TermsAnswered(item, j + 1, before, refusedBefore, known, refused + more)
  {
    var terms := item.terms[..j + 1];
    assert terms[..j] == item.terms[..j] && terms == item.terms[..j] + [item.terms[j]];
    RefusedOfSame(item, item.terms[..j], was, known);
  }

  lemma AnsweredNext(items: seq<Item>, i: nat, before: Decisions, refusedBefore: seq<Refusal>,
                     known: Decisions, refused: seq<Refusal>)
    requires i < |items| && Answered(items, i, before, refusedBefore)
    requires TermsAnswered(items[i], |items[i].terms|, before, refusedBefore, known, refused)
    ensures Answered(items, i + 1, known, refused)
  {
    var item, first := items[i], items[..i];
    assert item.terms[..|item.terms|] == item.terms;
    forall k | 0 <= k < i ensures first[k] == items[k] {
    }
    RefusedAllSame(first, before, known);
    assert items[..i + 1][..i] == first;
  }

  /** Asks about each class of one part that has not been asked about yet. */
  method AskItem(gateway: Gateway, items: seq<Item>, i: nat, before: Decisions, refusedBefore: seq<Refusal>,
                 ghost asked: seq<Value>, ghost start: seq<Event>)
    returns (known: Decisions, refused: seq<Refusal>, ghost order: seq<Value>)
    requires i < |items| && Answered(items, i, before, refusedBefore) && AskedOnce(asked, before)
    requires gateway.log.events == start + Asks(asked, before)
    modifies gateway.log
    ensures AskedOnce(order, known) && gateway.log.events == start + Asks(order, known)
    ensures Answered(items, i + 1, known, refused)
  {
    var item := items[i];
    known, refused, order := before, refusedBefore, asked;
    for j := 0 to |item.terms|
      invariant AskedOnce(order, known) && gateway.log.events == start + Asks(order, known)
      invariant TermsAnswered(item, j, before, refusedBefore, known, refused)
    {
      var t := item.terms[j];
      ghost var was := known;
      if t !in known {
        var d := gateway.Decide(t);
        AskedNext(order, known, t, d);
        known, order := known[t := d], order + [t];
      }
      TermsAnsweredNext(item, j, before, refusedBefore, was, known, refused);
      if !known[t].permitted {
        refused := refused + [Refusal(item, t, known[t].reason)];
      }
    }
    AnsweredNext(items, i, before, refusedBefore, known, refused);
  }

  lemma AskedNext(order: seq<Value>, decisions: Decisions, t: Value, d: Decision)
    requires AskedOnce(order, decisions) && t !in decisions
    ensures AskedOnce(order + [t], decisions[t := d])
    ensures Asks(order + [t], decisions[t := d]) == Asks(order, decisions) + [Asked(t, d)]
  {
  }

  lemma {:induction false} RefusedOfSame(item: Item, terms: seq<Value>, a: Decisions, b: Decisions)
    requires forall t :: t in terms ==> t in a && t in b && a[t] == b[t]
    ensures RefusedOf(item, terms, a) == RefusedOf(item, terms, b)
  {
    if terms != [] {
      RefusedOfSame(item, terms[..|terms| - 1], a, b);
    }
  }

  lemma {:induction false} RefusedAllSame(items: seq<Item>, a: Decisions, b: Decisions)
    requires Covers(a, items) && Covers(b, items)
    requires forall t :: t in a ==> t in b && a[t] == b[t]
    ensures RefusedAll(items, a) == RefusedAll(items, b)
  {
    if items != [] {
      RefusedAllSame(items[..|items| - 1], a, b);
      RefusedOfSame(items[|items| - 1], items[|items| - 1].terms, a, b);
    }
  }

  // ----- a permitted save

  lemma PermittedTerm(items: seq<Item>, decisions: Decisions, item: Item, t: Value)
    requires Covers(decisions, items) && RefusedAll(items, decisions) == []
    requires item in items && t in item.terms
    ensures t in decisions && decisions[t].permitted
  {
    PermittedExactly(items, decisions);
  }

  /** A save that is let through was permitted on the class of every table that
      differs, as it was and as it becomes. */
  lemma PermittedTable(text: Serialise, saved: Config, updated: Config, decisions: Decisions, key: string, table: Dump)
    requires Covers(decisions, Changes(text, saved, updated)) && RefusedAll(Changes(text, saved, updated), decisions) == []
    requires Find(saved.tables, key) != Find(updated.tables, key)
    requires Find(saved.tables, key) == Present(table) || Find(updated.tables, key) == Present(table)
    ensures Term(table) in decisions && decisions[Term(table)].permitted
  {
    ChangedTableListed(text, saved, updated, key);
    PermittedTerm(Changes(text, saved, updated), decisions, TableItem(saved, updated, key), Term(table));
  }

  /** ... on every class a relationship that differs starts from, before or after, ... */
  lemma PermittedEdge(text: Serialise, saved: Config, updated: Config, decisions: Decisions, where: string, t: Value)
    requires Covers(decisions, Changes(text, saved, updated)) && RefusedAll(Changes(text, saved, updated), decisions) == []
    requires multiset(Group(saved.edges, where)) != multiset(Group(updated.edges, where))
    requires t in ClassesOf(saved, Group(saved.edges, where)) || t in ClassesOf(updated, Group(updated.edges, where))
    ensures t in decisions && decisions[t].permitted
  {
    ChangedEdgeListed(text, saved, updated, where);
    PermittedTerm(Changes(text, saved, updated), decisions, EdgeItem(text, saved, updated, where), t);
  }

  /** ... and project-wide when a setting differs. */
  lemma PermittedSetting(text: Serialise, saved: Config, updated: Config, decisions: Decisions, key: string)
    requires Covers(decisions, Changes(text, saved, updated)) && RefusedAll(Changes(text, saved, updated), decisions) == []
    requires Get(saved.settings, key) != Get(updated.settings, key)
    ensures Null in decisions && decisions[Null].permitted
  {
    ChangedSettingListed(text, saved, updated, key);
    PermittedTerm(Changes(text, saved, updated), decisions, SettingItem(key), Null);
  }
}
