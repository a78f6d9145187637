/**
 What a curated plan decides about one concept, told from the document and the
 generated names alone (src/r2g/curated_labels.py:282-433).
 */
module CuratedExact {
  import opened Characters
  import opened CuratedLabels

  ghost predicate Named(entries: seq<Entry>, k: Key)
  {
    exists e :: e in entries && e.key == k
  }

  ghost predicate NamedTwice(entries: seq<Entry>, k: Key)
  {
    exists i, j :: 0 <= i < j < |entries| && entries[i].key == k && entries[j].key == k
  }

  lemma {:induction false} CountedTwice(entries: seq<Entry>, k: Key)
    ensures |EntriesFor(entries, k)| > 1 <==> NamedTwice(entries, k)
  {
    if entries != [] {
      var n := |entries| - 1;
      CountedTwice(entries[..n], k);
      EntriesForMembers(entries[..n], k);
      NamedTwiceMore(entries[..n], entries[n], k);
      assert entries == entries[..n] + [entries[n]];
      hide NamedTwice;
    }
  }

  lemma NamedTwiceMore(before: seq<Entry>, last: Entry, k: Key)
    ensures NamedTwice(before + [last], k) <==> NamedTwice(before, k) || (last.key == k && Named(before, k))
  {
    var entries := before + [last];
    if i, j :| 0 <= i < j < |before| && before[i].key == k && before[j].key == k {
      assert entries[i].key == k && entries[j].key == k;
    }
    if last.key == k && Named(before, k) {
      var e :| e in before && e.key == k;
      var i :| 0 <= i < |before| && before[i] == e;
      assert entries[i].key == k && entries[|before|].key == k;
    }
    if i, j :| 0 <= i < j < |entries| && entries[i].key == k && entries[j].key == k {
      assert entries[i] == before[i] && before[i] in before;
      assert j < |before| ==> entries[j] == before[j];
    }
  }

  /** A property whose label is declared a join key. */
  predicate DeclaredJoinKey(ctx: Context, k: Key)
  {
    match k
    case PropertyKey(_, p) => p in ctx.joinKeys
    case _ => false
  }

  /** What a claim settles, and with which entry. */
  ghost predicate ClaimSays(ctx: Context, derive: Derive, entries: seq<Entry>, k: Key, e: Entry, claim: Claim)
  {
    && (claim == Settled(e, Unmatched) <==> !IsConcept(ctx, k))
    && (claim == Settled(e, JoinKey) <==> IsConcept(ctx, k) && DeclaredJoinKey(ctx, k))
    && (claim == Settled(e, CuratedTwice) <==>
          IsConcept(ctx, k) && !DeclaredJoinKey(ctx, k) && NamedTwice(entries, k))
    && (claim == Settled(e, NoIdentifier) <==>
          IsConcept(ctx, k) && !DeclaredJoinKey(ctx, k) && !NamedTwice(entries, k) && derive(e) == None)
    && (claim.Wanted? <==>
          IsConcept(ctx, k) && !DeclaredJoinKey(ctx, k) && !NamedTwice(entries, k) && derive(e).Some?)
    && (claim.Wanted? ==> claim == Wanted(e, derive(e).value))
  }

  lemma ClaimExactly(ctx: Context, derive: Derive, entries: seq<Entry>, claims: map<Key, Claim>, k: Key)
    requires ClaimsOf(ctx, derive, entries, claims) && Named(entries, k)
    ensures k in claims && ClaimSays(ctx, derive, entries, k, LastFor(entries, k), claims[k])
  {
    EntriesForMembers(entries, k);
    CountedTwice(entries, k);
    hide EntriesFor, NamedTwice, IsConcept;
  }

  /** How a named concept is resolved, whatever other concepts are given. */
  ghost predicate ResolvedAs(ctx: Context, derive: Derive, entries: seq<Entry>, k: Key, e: Entry, r: Resolution)
  {
    && (r == Unmatched <==> !IsConcept(ctx, k))
    && (r == JoinKey <==> IsConcept(ctx, k) && DeclaredJoinKey(ctx, k))
    && (r == CuratedTwice <==> IsConcept(ctx, k) && !DeclaredJoinKey(ctx, k) && NamedTwice(entries, k))
    && (r == NoIdentifier <==>
          IsConcept(ctx, k) && !DeclaredJoinKey(ctx, k) && !NamedTwice(entries, k) && derive(e) == None)
    && (r.Taken? || r.Applied? || r.Unchanged? ==> derive(e).Some?)
    && (r.Applied? ==> derive(e) == Some(r.name) && r.name != Generated(k))
    && (r.Unchanged? ==> derive(e) == Some(r.name) && r.name == Generated(k))
  }

  /** A concept's record cites the last entry that names it and says how it was resolved; an
      annotation has that entry's words, and the generated name if another is used. */
  lemma DecidedExactly(ctx: Context, derive: Derive, entries: seq<Entry>, plan: Plan, k: Key)
    requires IsPlan(ctx, derive, entries, plan) && Named(entries, k)
    ensures var e := LastFor(entries, k);
      && k in plan.records && ResolvedAs(ctx, derive, entries, k, e, plan.records[k].resolution)
      && plan.records[k] == Record(e.words, e.identifier, e.decidedBy, plan.records[k].resolution)
      && (k in plan.annotations ==> AnnotatedAs(derive, k, e, plan.annotations[k]))
  {
    var claims :| ClaimsOf(ctx, derive, entries, claims) && plan == PlanFor(ctx, derive, claims);
    ClaimExactly(ctx, derive, entries, claims, k);
    AllNamed(ctx, derive, entries, claims);
    hide ClaimsOf, IsConcept, NamedTwice, LastFor, Stable, Named, ClaimSays, ResolvedAs, AnnotatedAs, PlanOf;
    var e, accepted := LastFor(entries, k), Survivors(ctx, claims);
    PlanSays(ctx, claims, accepted, k);
    ResolutionSays(ctx, derive, entries, k, e, claims[k], accepted);
  }

  ghost predicate AnnotatedAs(derive: Derive, k: Key, e: Entry, a: Annotation)
  {
    && derive(e).Some? && a.prefLabel == e.words && a.note == e.note
    && a.generated == if derive(e) == Some(Generated(k)) then None else Some(Generated(k))
  }

  lemma AllNamed(ctx: Context, derive: Derive, entries: seq<Entry>, claims: map<Key, Claim>)
    requires ClaimsOf(ctx, derive, entries, claims)
    ensures forall c :: c in claims ==> !claims[c].Unnamed?
    ensures Survivors(ctx, claims) <= Targets(claims).Keys
  {
    hide EntriesFor, ClaimOf;
  }

  lemma ResolutionSays(ctx: Context, derive: Derive, entries: seq<Entry>, k: Key, e: Entry, claim: Claim,
                       accepted: set<Key>)
    requires ClaimSays(ctx, derive, entries, k, e, claim)
    ensures !claim.Unnamed? && claim.entry == e
    ensures ResolvedAs(ctx, derive, entries, k, e, ResolutionOf(claim, k, accepted))
    ensures claim.Wanted? ==> AnnotatedAs(derive, k, e, Annotate(claim.entry, Generated(k), claim.target))
  {
    hide IsConcept, NamedTwice, Generated, DeclaredJoinKey;
  }

  lemma PlanSays(ctx: Context, claims: map<Key, Claim>, accepted: set<Key>, k: Key)
    requires forall c :: c in claims ==> !claims[c].Unnamed?
    requires accepted <= Targets(claims).Keys && k in claims
    ensures var plan := PlanOf(claims, accepted);
      && k in plan.records && plan.records[k] == Citing(claims[k].entry, ResolutionOf(claims[k], k, accepted))
      && (k in plan.annotations ==>
            plan.annotations[k] == Annotate(claims[k].entry, Generated(k), claims[k].target) && claims[k].Wanted?)
  {
    var plan := PlanOf(claims, accepted);
    assert plan.records[k] == Citing(claims[k].entry, ResolutionOf(claims[k], k, accepted));
  }
}
