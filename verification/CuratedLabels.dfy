/**
 Resolving a curator's names against the generated ones
 (src/r2g/curated_labels.py). Which identifier a label yields is a parameter.
 */
module CuratedLabels {
  import opened Characters

  /** A concept, named by what r2g generates. */
  datatype Key =
    | EntityKey(entity: string)
    | PropertyKey(entity: string, prop: string)
    | RelationshipKey(relationship: string)

  function Generated(k: Key): string
  {
    match k
    case EntityKey(e) => e
    case PropertyKey(_, p) => p
    case RelationshipKey(r) => r
  }

  /** Entities have a name space of their own; properties and relationships share one. */
  predicate SameNamespace(a: Key, b: Key)
  {
    a.EntityKey? <==> b.EntityKey?
  }

  /** What was generated: entities with their properties, relationships, and the
      property labels that are declared join keys. */
  datatype Context = Context(entities: map<string, seq<string>>, relationships: set<string>, joinKeys: set<string>)

  predicate IsConcept(ctx: Context, k: Key)
  {
    match k
    case EntityKey(e) => e in ctx.entities
    case PropertyKey(e, p) => e in ctx.entities && p in ctx.entities[e]
    case RelationshipKey(r) => r in ctx.relationships
  }

  function EntityKeys(ctx: Context): set<Key>
  {
    set e | e in ctx.entities :: EntityKey(e)
  }

  function PropertyKeys(ctx: Context): set<Key>
  {
    set e, p | e in ctx.entities && p in ctx.entities[e] :: PropertyKey(e, p)
  }

  function RelationshipKeys(ctx: Context): set<Key>
  {
    set r | r in ctx.relationships :: RelationshipKey(r)
  }

  function Concepts(ctx: Context): (ks: set<Key>)
    ensures forall k :: k in ks <==> IsConcept(ctx, k)
  {
    EntityKeys(ctx) + PropertyKeys(ctx) + RelationshipKeys(ctx)
  }

  /** A curated entry: the concept it names, what is decided about it and by whom ("" if it does not say). */
  datatype Entry = Entry(key: Key, words: string, identifier: Option<string>, decidedBy: string, note: string)

  datatype Resolution =
    | Unmatched
    | JoinKey
    | CuratedTwice
    | NoIdentifier
    | Taken
    | Applied(name: string)
    | Unchanged(name: string)

  /** `_record`: the resolution of a concept, citing an entry that names it. */
  datatype Record = Record(words: string, identifier: Option<string>, decidedBy: string, resolution: Resolution)

  function Citing(e: Entry, resolution: Resolution): Record
  {
    Record(e.words, e.identifier, e.decidedBy, resolution)
  }

  datatype Annotation = Annotation(prefLabel: string, note: string, generated: Option<string>)

  datatype Plan = Plan(
    entities: map<string, string>,
    properties: map<(string, string), string>,
    relationships: map<string, string>,
    annotations: map<Key, Annotation>,
    records: map<Key, Record>)

  function LookUp(plan: Plan, k: Key): string
  {
    match k
    case EntityKey(e) => if e in plan.entities then plan.entities[e] else e
    case PropertyKey(e, p) => if (e, p) in plan.properties then plan.properties[(e, p)] else p
    case RelationshipKey(r) => if r in plan.relationships then plan.relationships[r] else r
  }

  /** The identifier an entry wants, if its label or own identifier yields one. */
  type Derive = Entry -> Option<string>

  // ----- the claim phase

  predicate IsJoinKey(ctx: Context, k: Key)
  {
    k.PropertyKey? && k.prop in ctx.joinKeys
  }

  /** The entries that name one concept, in document order. */
  function EntriesFor(entries: seq<Entry>, k: Key): seq<Entry>
  {
    if entries == [] then []
    else EntriesFor(entries[..|entries| - 1], k)
         + (if entries[|entries| - 1].key == k then [entries[|entries| - 1]] else [])
  }

  predicate Claimable(ctx: Context, k: Key)
  {
    IsConcept(ctx, k) && !IsJoinKey(ctx, k)
  }

  /** What the claim phase says about one concept from its entries alone. A settled
      claim is recorded with the entry that came last. */
  datatype Claim = Unnamed | Wanted(entry: Entry, target: string) | Settled(entry: Entry, resolution: Resolution)

  function ClaimOf(ctx: Context, derive: Derive, k: Key, es: seq<Entry>): Claim
  {
    if es == [] then Unnamed
    else
      var last := es[|es| - 1];
      if !IsConcept(ctx, k) then Settled(last, Unmatched)
      else if IsJoinKey(ctx, k) then Settled(last, JoinKey)
      else if |es| > 1 then Settled(last, CuratedTwice)
      else if derive(last).None? then Settled(last, NoIdentifier)
      else Wanted(last, derive(last).value)
  }

  /** The same for one more entry, as the loop works it out. */
  function NextClaim(ctx: Context, derive: Derive, before: Claim, e: Entry): Claim
  {
    if !IsConcept(ctx, e.key) then Settled(e, Unmatched)
    else if IsJoinKey(ctx, e.key) then Settled(e, JoinKey)
    else if !before.Unnamed? then Settled(e, CuratedTwice)
    else if derive(e).None? then Settled(e, NoIdentifier)
    else Wanted(e, derive(e).value)
  }

  lemma NextClaimCorrect(ctx: Context, derive: Derive, k: Key, es: seq<Entry>, e: Entry)
    requires e.key == k
    ensures NextClaim(ctx, derive, ClaimOf(ctx, derive, k, es), e) == ClaimOf(ctx, derive, k, es + [e])
  {
  }

  lemma NothingClaimed(ctx: Context, derive: Derive, k: Key)
    ensures ClaimOf(ctx, derive, k, []) == Unnamed
  {
  }

  lemma NextNamed(ctx: Context, derive: Derive, before: Claim, e: Entry)
    ensures !NextClaim(ctx, derive, before, e).Unnamed?
  {
  }

  /** The claims after a document: per concept, by its entries. */
  ghost predicate ClaimsOf(ctx: Context, derive: Derive, entries: seq<Entry>, claims: map<Key, Claim>)
  {
    forall k :: if k in claims then claims[k] == ClaimOf(ctx, derive, k, EntriesFor(entries, k)) && !claims[k].Unnamed?
                else EntriesFor(entries, k) == []
  }

  method ClaimAll(ctx: Context, derive: Derive, entries: seq<Entry>) returns (claims: map<Key, Claim>)
    ensures ClaimsOf(ctx, derive, entries, claims)
  {
    claims := map[];
    for i := 0 to |entries|
      invariant ClaimsOf(ctx, derive, entries[..i], claims)
    {
      var e := entries[i];
      ClaimsStep(ctx, derive, entries, i, claims);
      var before := if e.key in claims then claims[e.key] else Unnamed;
      claims := claims[e.key := NextClaim(ctx, derive, before, e)];
    }
    assert entries[..|entries|] == entries;
  }

  lemma ClaimsStep(ctx: Context, derive: Derive, entries: seq<Entry>, i: nat, claims: map<Key, Claim>)
    requires i < |entries| && ClaimsOf(ctx, derive, entries[..i], claims)
    ensures var e := entries[i]; var before := if e.key in claims then claims[e.key] else Unnamed;
            ClaimsOf(ctx, derive, entries[..i + 1], claims[e.key := NextClaim(ctx, derive, before, e)])
  {
    var e := entries[i];
    var before := if e.key in claims then claims[e.key] else Unnamed;
    var after := claims[e.key := NextClaim(ctx, derive, before, e)];
    hide EntriesFor, NextClaim;
    hide ClaimOf;
    forall k
      ensures if k in after then after[k] == ClaimOf(ctx, derive, k, EntriesFor(entries[..i + 1], k)) && !after[k].Unnamed?
              else EntriesFor(entries[..i + 1], k) == []
    {
      EntriesForNext(entries, i, k);
      if k == e.key {
        NothingClaimed(ctx, derive, k);
        NextClaimCorrect(ctx, derive, k, EntriesFor(entries[..i], k), e);
        NextNamed(ctx, derive, before, e);
      }
    }
  }

  lemma EntriesForNext(entries: seq<Entry>, i: nat, k: Key)
    requires i < |entries|
    ensures EntriesFor(entries[..i + 1], k)
         == EntriesFor(entries[..i], k) + (if entries[i].key == k then [entries[i]] else [])
  {
    assert entries[..i + 1][..i] == entries[..i];
  }

  // ----- refusing until stable

  /** The name a concept is emitted under while `accepted` holds. */
  function Emitted(targets: map<Key, string>, accepted: set<Key>, k: Key): string
    requires accepted <= targets.Keys
  {
    if k in accepted then targets[k] else Generated(k)
  }

  /** Some other concept of its name space is emitted under the name `k` wants. */
  predicate IsTaken(concepts: set<Key>, targets: map<Key, string>, accepted: set<Key>, k: Key)
    requires accepted <= targets.Keys && k in targets
  {
    exists o :: o in concepts && o != k && SameNamespace(o, k) && Emitted(targets, accepted, o) == targets[k]
  }

  function Refusals(concepts: set<Key>, targets: map<Key, string>, accepted: set<Key>): set<Key>
    requires accepted <= targets.Keys
  {
    set k | k in accepted && IsTaken(concepts, targets, accepted, k)
  }

  /** The rounds: all renames refused in one are dropped together. */
  function Stable(concepts: set<Key>, targets: map<Key, string>, accepted: set<Key>): (r: set<Key>)
    requires accepted <= targets.Keys
    ensures r <= accepted
    decreases accepted
  {
    var refused := Refusals(concepts, targets, accepted);
    if refused == {} then accepted else Stable(concepts, targets, accepted - refused)
  }

  lemma {:induction false} StableRefusesNone(concepts: set<Key>, targets: map<Key, string>, accepted: set<Key>)
    requires accepted <= targets.Keys
    ensures Refusals(concepts, targets, Stable(concepts, targets, accepted)) == {}
    decreases accepted
  {
    var refused := Refusals(concepts, targets, accepted);
    if refused != {} {
      StableRefusesNone(concepts, targets, accepted - refused);
    }
  }

  /** Nothing is refused exactly when no wanted name is held by another concept
      once all renames are made: swaps and rotations go through. */
  lemma StableKeepsAll(concepts: set<Key>, targets: map<Key, string>, accepted: set<Key>)
    requires accepted <= targets.Keys
    ensures Stable(concepts, targets, accepted) == accepted <==>
            forall k :: k in accepted ==> !IsTaken(concepts, targets, accepted, k)
  {
    var refused := Refusals(concepts, targets, accepted);
    if refused == {} {
      forall k | k in accepted ensures !IsTaken(concepts, targets, accepted, k) {
        assert k !in refused;
      }
    } else {
      var k :| k in refused;
      assert k !in Stable(concepts, targets, accepted - refused);
    }
  }

  /** A rename is refused only in a round where its name was held. */
  lemma {:induction false} RefusedForCause(concepts: set<Key>, targets: map<Key, string>, accepted: set<Key>, k: Key)
    requires accepted <= targets.Keys && k in accepted && k !in Stable(concepts, targets, accepted)
    ensures exists a :: Stable(concepts, targets, accepted) <= a <= accepted && k in Refusals(concepts, targets, a)
    decreases accepted
  {
    var refused := Refusals(concepts, targets, accepted);
    if k !in refused {
      RefusedForCause(concepts, targets, accepted - refused, k);
    }
  }

  /** Two concepts share an emitted name only if neither is renamed and their
      generated names were already equal. */
  lemma NoNewCollision(concepts: set<Key>, targets: map<Key, string>, accepted: set<Key>, a: Key, b: Key)
    requires accepted <= targets.Keys && a in concepts && b in concepts && a != b && SameNamespace(a, b)
    requires var stable := Stable(concepts, targets, accepted);
      Emitted(targets, stable, a) == Emitted(targets, stable, b)
    ensures a !in Stable(concepts, targets, accepted) && b !in Stable(concepts, targets, accepted)
    ensures Generated(a) == Generated(b)
    ensures !a.EntityKey?
  {
    var stable := Stable(concepts, targets, accepted);
    StableRefusesNone(concepts, targets, accepted);
    forall k | k in stable ensures !IsTaken(concepts, targets, stable, k) {
      assert k !in Refusals(concepts, targets, stable);
    }
  }

  /** The concepts by emitted name, as a round tabulates them. */
  ghost predicate Tabulates(names: map<string, set<Key>>, keys: set<Key>, targets: map<Key, string>, accepted: set<Key>)
    requires accepted <= targets.Keys
  {
    forall k, n :: k in Holders(names, n) <==> k in keys && Emitted(targets, accepted, k) == n
  }

  function Holders(names: map<string, set<Key>>, n: string): set<Key>
  {
    if n in names then names[n] else {}
  }

  method Tabulate(keys: set<Key>, targets: map<Key, string>, accepted: set<Key>) returns (names: map<string, set<Key>>)
    requires accepted <= targets.Keys
    ensures Tabulates(names, keys, targets, accepted)
  {
    names := map[];
    var todo := keys;
    while todo != {}
      invariant todo <= keys && Tabulates(names, keys - todo, targets, accepted)
      decreases todo
    {
      var k :| k in todo;
      var n := Emitted(targets, accepted, k);
      TabulateStep(names, keys - todo, targets, accepted, k);
      assert keys - (todo - {k}) == (keys - todo) + {k};
      names := names[n := Holders(names, n) + {k}];
      todo := todo - {k};
    }
    assert keys - {} == keys;
  }

  lemma TabulateStep(names: map<string, set<Key>>, keys: set<Key>, targets: map<Key, string>, accepted: set<Key>,
                     k: Key)
    requires accepted <= targets.Keys && Tabulates(names, keys, targets, accepted)
    ensures var n := Emitted(targets, accepted, k);
            Tabulates(names[n := Holders(names, n) + {k}], keys + {k}, targets, accepted)
  {
    var n := Emitted(targets, accepted, k);
    var more := names[n := Holders(names, n) + {k}];
    forall j, m ensures j in Holders(more, m) <==> j in keys + {k} && Emitted(targets, accepted, j) == m {
      assert j in Holders(names, m) <==> j in keys && Emitted(targets, accepted, j) == m;
    }
  }

  method RefuseRound(ctx: Context, targets: map<Key, string>, accepted: set<Key>) returns (refused: set<Key>)
    requires accepted <= targets.Keys
    ensures refused == Refusals(Concepts(ctx), targets, accepted)
  {
    var entityNames := Tabulate(EntityKeys(ctx), targets, accepted);
    var holders := Tabulate(PropertyKeys(ctx) + RelationshipKeys(ctx), targets, accepted);
    refused := {};
    var todo := accepted;
    while todo != {}
      invariant todo <= accepted
      invariant refused == Refusals(Concepts(ctx), targets, accepted) - todo
      decreases todo
    {
      var k :| k in todo;
      var names := if k.EntityKey? then entityNames else holders;
      var others := Holders(names, targets[k]) - {k};
      TakenByTable(ctx, targets, accepted, k, names, others);
      if others != {} {
        refused := refused + {k};
      }
      todo := todo - {k};
    }
  }

  lemma TakenByTable(ctx: Context, targets: map<Key, string>, accepted: set<Key>, k: Key,
                     names: map<string, set<Key>>, others: set<Key>)
    requires accepted <= targets.Keys && k in accepted
    requires Tabulates(names, if k.EntityKey? then EntityKeys(ctx) else PropertyKeys(ctx) + RelationshipKeys(ctx),
                       targets, accepted)
    requires others == Holders(names, targets[k]) - {k}
    ensures others != {} <==> IsTaken(Concepts(ctx), targets, accepted, k)
  {
    if others != {} {
      var o :| o in others;
      assert o in Holders(names, targets[k]);
      assert o in Concepts(ctx) && SameNamespace(o, k);
    }
    if IsTaken(Concepts(ctx), targets, accepted, k) {
      var o :| o in Concepts(ctx) && o != k && SameNamespace(o, k) && Emitted(targets, accepted, o) == targets[k];
      assert o in Holders(names, targets[k]);
      assert o in others;
    }
  }

  method RefuseUntilStable(ctx: Context, targets: map<Key, string>, wanted: set<Key>) returns (accepted: set<Key>)
    requires wanted <= targets.Keys
    ensures accepted == Stable(Concepts(ctx), targets, wanted)
  {
    accepted := wanted;
    var refused := RefuseRound(ctx, targets, accepted);
    while refused != {}
      invariant accepted <= wanted && refused == Refusals(Concepts(ctx), targets, accepted)
      invariant Stable(Concepts(ctx), targets, accepted) == Stable(Concepts(ctx), targets, wanted)
      decreases accepted
    {
      accepted := accepted - refused;
      refused := RefuseRound(ctx, targets, accepted);
    }
  }

  // ----- the plan

  function Targets(claims: map<Key, Claim>): map<Key, string>
  {
    map k | k in claims && claims[k].Wanted? :: claims[k].target
  }

  function Annotate(e: Entry, generated: string, emitted: string): Annotation
  {
    Annotation(e.words, e.note, if generated == emitted then None else Some(generated))
  }

  function ResolutionOf(claim: Claim, k: Key, accepted: set<Key>): Resolution
    requires !claim.Unnamed?
  {
    match claim
    case Settled(_, resolution) => resolution
    case Wanted(_, target) =>
      if k !in accepted then Taken else if target != Generated(k) then Applied(target) else Unchanged(target)
  }

  /** The plan that claims and surviving renames make. */
  function PlanOf(claims: map<Key, Claim>, accepted: set<Key>): Plan
    requires forall k :: k in claims ==> !claims[k].Unnamed?
    requires forall k :: k in accepted ==> k in claims && claims[k].Wanted?
  {
    Plan(
      map k | k in accepted && k.EntityKey? :: k.entity := claims[k].target,
      map k | k in accepted && k.PropertyKey? :: (k.entity, k.prop) := claims[k].target,
      map k | k in accepted && k.RelationshipKey? :: k.relationship := claims[k].target,
      map k | k in accepted :: Annotate(claims[k].entry, Generated(k), claims[k].target),
      map k | k in claims :: Citing(claims[k].entry, ResolutionOf(claims[k], k, accepted)))
  }

  /** `plan_curated_labels`, as a whole. */
  ghost function PlanFor(ctx: Context, derive: Derive, claims: map<Key, Claim>): Plan
    requires forall k :: k in claims ==> !claims[k].Unnamed?
  {
    PlanOf(claims, Stable(Concepts(ctx), Targets(claims), Targets(claims).Keys))
  }

  /** `plan_curated_labels` */
  method PlanCuratedLabels(ctx: Context, derive: Derive, entries: seq<Entry>) returns (plan: Plan)
    ensures IsPlan(ctx, derive, entries, plan)
  {
    var claims := ClaimAll(ctx, derive, entries);
    var targets := Targets(claims);
    var accepted := RefuseUntilStable(ctx, targets, targets.Keys);
    plan := PlanOf(claims, accepted);
  }

  /** The plan made from the claims of these entries. */
  ghost predicate IsPlan(ctx: Context, derive: Derive, entries: seq<Entry>, plan: Plan)
  {
    exists claims :: ClaimsOf(ctx, derive, entries, claims) && plan == PlanFor(ctx, derive, claims)
  }

  // ----- the claims about plans

  /** The concepts whose rename survived. */
  ghost function Survivors(ctx: Context, claims: map<Key, Claim>): set<Key>
  {
    Stable(Concepts(ctx), Targets(claims), Targets(claims).Keys)
  }

  /** An exporter's lookup returns exactly the name the rounds settled on. */
  lemma LookUpIsEmitted(ctx: Context, derive: Derive, claims: map<Key, Claim>, k: Key)
    requires forall c :: c in claims ==> !claims[c].Unnamed?
    ensures LookUp(PlanFor(ctx, derive, claims), k) == Emitted(Targets(claims), Survivors(ctx, claims), k)
  {
    var accepted := Survivors(ctx, claims);
    var plan := PlanOf(claims, accepted);
    match k {
      case EntityKey(e) =>
        assert e in plan.entities <==> EntityKey(e) in accepted;
      case PropertyKey(e, p) =>
        assert (e, p) in plan.properties <==> PropertyKey(e, p) in accepted;
      case RelationshipKey(r) =>
        assert r in plan.relationships <==> RelationshipKey(r) in accepted;
    }
  }

  /** No plan makes two concepts of one name space share a name they did not
      share before; entity names stay distinct. */
  lemma PlanCreatesNoCollision(ctx: Context, derive: Derive, entries: seq<Entry>, plan: Plan, a: Key, b: Key)
    requires IsPlan(ctx, derive, entries, plan)
    requires IsConcept(ctx, a) && IsConcept(ctx, b) && a != b && SameNamespace(a, b)
    requires LookUp(plan, a) == LookUp(plan, b)
    ensures !a.EntityKey? && Generated(a) == Generated(b)
    ensures LookUp(plan, a) == Generated(a)
    ensures a !in plan.annotations && b !in plan.annotations
  {
    var claims :| ClaimsOf(ctx, derive, entries, claims) && plan == PlanFor(ctx, derive, claims);
    LookUpIsEmitted(ctx, derive, claims, a);
    LookUpIsEmitted(ctx, derive, claims, b);
    NoNewCollision(Concepts(ctx), Targets(claims), Targets(claims).Keys, a, b);
  }

  lemma ClaimFacts(ctx: Context, derive: Derive, entries: seq<Entry>, claims: map<Key, Claim>, k: Key)
    requires ClaimsOf(ctx, derive, entries, claims)
    ensures k in claims <==> exists e :: e in entries && e.key == k
    ensures k in claims && claims[k].Settled? ==> !claims[k].resolution.Applied? && !claims[k].resolution.Unchanged?
    ensures k in Targets(claims) <==> k in claims && claims[k].Wanted?
  {
    EntriesForMembers(entries, k);
  }

  predicate IsApplied(r: Resolution)
  {
    r.Applied? || r.Unchanged?
  }

  /** The entry naming a concept that the document lists last. */
  function LastFor(entries: seq<Entry>, k: Key): Entry
    requires exists e :: e in entries && e.key == k
  {
    EntriesForMembers(entries, k);
    EntriesFor(entries, k)[|EntriesFor(entries, k)| - 1]
  }

  /** Every concept named by an entry has one record, citing the last such entry:
      applied or unchanged exactly when its rename survived, and then annotated. */
  lemma RecordsExact(ctx: Context, derive: Derive, entries: seq<Entry>, plan: Plan, k: Key)
    requires IsPlan(ctx, derive, entries, plan)
    ensures k in plan.records <==> exists e :: e in entries && e.key == k
    ensures k in plan.annotations <==> k in plan.records && IsApplied(plan.records[k].resolution)
    ensures k in plan.records && plan.records[k].resolution.Applied? ==> LookUp(plan, k) == plan.records[k].resolution.name != Generated(k)
    ensures !(k in plan.records && plan.records[k].resolution.Applied?) ==> LookUp(plan, k) == Generated(k)
    ensures k in plan.records ==> plan.records[k] == Citing(LastFor(entries, k), plan.records[k].resolution)
  {
    var claims :| ClaimsOf(ctx, derive, entries, claims) && plan == PlanFor(ctx, derive, claims);
    ClaimFacts(ctx, derive, entries, claims, k);
    LookUpIsEmitted(ctx, derive, claims, k);
    RecordOf(claims, Survivors(ctx, claims), k);
    if k in claims {
      LastClaimed(ctx, derive, entries, claims, k);
    }
  }

  lemma LastClaimed(ctx: Context, derive: Derive, entries: seq<Entry>, claims: map<Key, Claim>, k: Key)
    requires ClaimsOf(ctx, derive, entries, claims) && k in claims
    ensures exists e :: e in entries && e.key == k
    ensures !claims[k].Unnamed? && claims[k].entry == LastFor(entries, k)
  {
    EntriesForMembers(entries, k);
    hide EntriesFor;
  }

  lemma RecordOf(claims: map<Key, Claim>, accepted: set<Key>, k: Key)
    requires forall c :: c in claims ==> !claims[c].Unnamed?
    requires accepted <= Targets(claims).Keys
    requires k in claims && claims[k].Settled? ==> !claims[k].resolution.Applied? && !claims[k].resolution.Unchanged?
    ensures var plan := PlanOf(claims, accepted);
            RecordFits(plan.records, plan.annotations, Targets(claims), k, k in claims, k in accepted)
    ensures var plan := PlanOf(claims, accepted);
            k in claims ==> k in plan.records && plan.records[k] == Citing(claims[k].entry, plan.records[k].resolution)
  {
    var plan := PlanOf(claims, accepted);
    assert k in plan.records <==> k in claims;
    assert k in plan.annotations <==> k in accepted;
    if k in claims {
      ResolutionFits(claims[k], k, accepted);
      assert plan.records[k] == Citing(claims[k].entry, ResolutionOf(claims[k], k, accepted));
    }
  }

  lemma ResolutionFits(claim: Claim, k: Key, accepted: set<Key>)
    requires !claim.Unnamed? && (k in accepted ==> claim.Wanted?)
    requires claim.Settled? ==> !claim.resolution.Applied? && !claim.resolution.Unchanged?
    ensures var r := ResolutionOf(claim, k, accepted);
      && (k in accepted <==> r.Applied? || r.Unchanged?)
      && (r.Applied? ==> claim.Wanted? && r.name == claim.target != Generated(k))
      && (r.Unchanged? ==> claim.Wanted? && claim.target == Generated(k))
  {
  }

  /** The record and annotation of `k`, given whether it was named and whether its rename survived. */
  ghost predicate RecordFits(records: map<Key, Record>, annotations: map<Key, Annotation>,
                             targets: map<Key, string>, k: Key, named: bool, survived: bool)
  {
    && (k in records <==> named)
    && (k in annotations <==> survived)
    && (survived <==> k in records && IsApplied(records[k].resolution))
    && (survived ==> k in targets)
    && (k in records && records[k].resolution.Applied? ==> records[k].resolution.name == targets[k] != Generated(k))
    && (k in records && records[k].resolution.Unchanged? ==> targets[k] == Generated(k))
  }

  lemma {:induction false} EntriesForMembers(entries: seq<Entry>, k: Key)
    ensures forall e :: e in EntriesFor(entries, k) <==> e in entries && e.key == k
    ensures EntriesFor(entries, k) == [] <==> forall e :: e in entries ==> e.key != k
  {
    if entries != [] {
      var before, last := entries[..|entries| - 1], entries[|entries| - 1];
      EntriesForMembers(before, k);
      assert entries == before + [last];
      if last.key == k {
        assert last in EntriesFor(entries, k);
      }
    }
  }

  /** A concept curated twice, and every join key, keeps its generated name. */
  lemma KeptNames(ctx: Context, derive: Derive, entries: seq<Entry>, plan: Plan, k: Key)
    requires IsPlan(ctx, derive, entries, plan)
    requires |EntriesFor(entries, k)| > 1 || IsJoinKey(ctx, k) || !IsConcept(ctx, k)
    ensures LookUp(plan, k) == Generated(k) && k !in plan.annotations
  {
    hide LookUp, Stable, EntriesFor;
    var claims :| ClaimsOf(ctx, derive, entries, claims) && plan == PlanFor(ctx, derive, claims);
    UnwantedClaim(ctx, derive, entries, claims, k);
    hide ClaimsOf, ClaimOf;
    LookUpIsEmitted(ctx, derive, claims, k);
  }

  lemma UnwantedClaim(ctx: Context, derive: Derive, entries: seq<Entry>, claims: map<Key, Claim>, k: Key)
    requires ClaimsOf(ctx, derive, entries, claims)
    requires |EntriesFor(entries, k)| > 1 || IsJoinKey(ctx, k) || !IsConcept(ctx, k)
    ensures k !in Targets(claims)
  {
    hide EntriesFor;
  }

  // ----- the order of the document

  /** Equal but for the entries the records cite. */
  ghost predicate SameDecisions(p: Plan, q: Plan)
  {
    && p.entities == q.entities && p.properties == q.properties && p.relationships == q.relationships
    && p.annotations == q.annotations
    && p.records.Keys == q.records.Keys && forall k :: k in p.records ==> p.records[k].resolution == q.records[k].resolution
  }

  /** Renames, annotations and resolutions do not depend on the order the document lists its entries in. */
  lemma OrderIndependent(ctx: Context, derive: Derive, entries: seq<Entry>, shuffled: seq<Entry>, plan: Plan,
                         other: Plan)
    requires multiset(entries) == multiset(shuffled)
    requires IsPlan(ctx, derive, entries, plan) && IsPlan(ctx, derive, shuffled, other)
    ensures SameDecisions(plan, other)
  {
    var c :| ClaimsOf(ctx, derive, entries, c) && plan == PlanFor(ctx, derive, c);
    var d :| ClaimsOf(ctx, derive, shuffled, d) && other == PlanFor(ctx, derive, d);
    AlikeClaims(ctx, derive, entries, shuffled, c, d);
    hide ClaimsOf, Stable;
    AlikeTargets(c, d);
    AlikePlans(c, d, Survivors(ctx, c));
  }

  /** The same but for the entry a settled claim cites. */
  ghost predicate Alike(c: Claim, d: Claim)
  {
    if c.Settled? then d.Settled? && c.resolution == d.resolution else c == d
  }

  lemma AlikeClaims(ctx: Context, derive: Derive, entries: seq<Entry>, shuffled: seq<Entry>,
                    c: map<Key, Claim>, d: map<Key, Claim>)
    requires multiset(entries) == multiset(shuffled)
    requires ClaimsOf(ctx, derive, entries, c) && ClaimsOf(ctx, derive, shuffled, d)
    ensures c.Keys == d.Keys && forall k :: k in c ==> Alike(c[k], d[k])
  {
    forall k ensures (k in c <==> k in d) && (k in c ==> Alike(c[k], d[k])) {
      ShuffledEntriesFor(entries, shuffled, k);
      AlikeClaim(ctx, derive, k, EntriesFor(entries, k), EntriesFor(shuffled, k));
    }
  }

  lemma AlikeTargets(c: map<Key, Claim>, d: map<Key, Claim>)
    requires c.Keys == d.Keys && forall k :: k in c ==> Alike(c[k], d[k])
    ensures Targets(c) == Targets(d)
  {
  }

  lemma AlikePlans(c: map<Key, Claim>, d: map<Key, Claim>, accepted: set<Key>)
    requires c.Keys == d.Keys && forall k :: k in c ==> Alike(c[k], d[k]) && !c[k].Unnamed?
    requires forall k :: k in accepted ==> k in c && c[k].Wanted?
    ensures forall k :: k in d ==> !d[k].Unnamed?
    ensures forall k :: k in accepted ==> k in d && d[k].Wanted?
    ensures SameDecisions(PlanOf(c, accepted), PlanOf(d, accepted))
  {
    forall k | k in accepted ensures c[k] == d[k] {
      assert Alike(c[k], d[k]);
    }
  }

  lemma AlikeClaim(ctx: Context, derive: Derive, k: Key, es: seq<Entry>, fs: seq<Entry>)
    requires multiset(es) == multiset(fs)
    ensures Alike(ClaimOf(ctx, derive, k, es), ClaimOf(ctx, derive, k, fs))
  {
    assert |es| == |multiset(es)| == |multiset(fs)| == |fs|;
    if |es| == 1 {
      assert es[0] in multiset(fs);
    }
  }

  ghost predicate PlansOf(ctx: Context, derive: Derive, entries: seq<Entry>, shuffled: seq<Entry>, plan: Plan,
                          other: Plan)
  {
    multiset(entries) == multiset(shuffled) && IsPlan(ctx, derive, entries, plan) && IsPlan(ctx, derive, shuffled, other)
  }

  /** However the document is shuffled, its plan has the same records, ... */
  ghost predicate RecordsFixed(ctx: Context, derive: Derive, entries: seq<Entry>)
  {
    forall shuffled, plan, other :: PlansOf(ctx, derive, entries, shuffled, plan, other) ==> plan.records == other.records
  }

  /** Entries naming one concept agree in what a record cites. */
  ghost predicate CitedAlike(entries: seq<Entry>)
  {
    forall e, f :: e in entries && f in entries && e.key == f.key ==> Citing(e, Unmatched) == Citing(f, Unmatched)
  }

  /** ... exactly when no concept has two entries that differ in what a record cites. */
  lemma RecordsFixedExactly(ctx: Context, derive: Derive, entries: seq<Entry>)
    ensures RecordsFixed(ctx, derive, entries) <==> CitedAlike(entries)
  {
    if CitedAlike(entries) {
      forall shuffled, plan, other | PlansOf(ctx, derive, entries, shuffled, plan, other) ensures plan.records == other.records {
        SameRecords(ctx, derive, entries, shuffled, plan, other);
      }
    } else {
      var e, f :| e in entries && f in entries && e.key == f.key && Citing(e, Unmatched) != Citing(f, Unmatched);
      RecordsDiffer(ctx, derive, entries, e, f);
    }
  }

  lemma SameRecords(ctx: Context, derive: Derive, entries: seq<Entry>, shuffled: seq<Entry>, plan: Plan, other: Plan)
    requires PlansOf(ctx, derive, entries, shuffled, plan, other) && CitedAlike(entries)
    ensures plan.records == other.records
  {
    hide IsPlan, CitedAlike;
    OrderIndependent(ctx, derive, entries, shuffled, plan, other);
    forall k | k in plan.records ensures plan.records[k] == other.records[k] {
      SameRecord(ctx, derive, entries, shuffled, plan, other, k);
    }
  }

  lemma SameRecord(ctx: Context, derive: Derive, entries: seq<Entry>, shuffled: seq<Entry>, plan: Plan, other: Plan,
                   k: Key)
    requires PlansOf(ctx, derive, entries, shuffled, plan, other) && CitedAlike(entries)
    requires k in plan.records && k in other.records && plan.records[k].resolution == other.records[k].resolution
    ensures plan.records[k] == other.records[k]
  {
    hide IsPlan, LookUp, LastFor, CitedAlike;
    RecordsExact(ctx, derive, entries, plan, k);
    RecordsExact(ctx, derive, shuffled, other, k);
    LastForNames(entries, k);
    LastForNames(shuffled, k);
    assert LastFor(shuffled, k) in multiset(entries);
    CitedSame(entries, LastFor(entries, k), LastFor(shuffled, k));
  }

  lemma CitedSame(entries: seq<Entry>, e: Entry, f: Entry)
    requires CitedAlike(entries) && e in entries && f in entries && e.key == f.key
    ensures forall r :: Citing(e, r) == Citing(f, r)
  {
    assert Citing(e, Unmatched) == Citing(f, Unmatched);
  }

  lemma LastForNames(entries: seq<Entry>, k: Key)
    requires exists e :: e in entries && e.key == k
    ensures LastFor(entries, k) in entries && LastFor(entries, k).key == k
  {
    EntriesForMembers(entries, k);
    assert LastFor(entries, k) in EntriesFor(entries, k);
  }

  /** Two differing entries of one concept, each moved to the end of the document in turn. */
  lemma RecordsDiffer(ctx: Context, derive: Derive, entries: seq<Entry>, e: Entry, f: Entry)
    requires e in entries && f in entries && e.key == f.key && Citing(e, Unmatched) != Citing(f, Unmatched)
    ensures !RecordsFixed(ctx, derive, entries)
  {
    hide IsPlan;
    var plan := PlanExists(ctx, derive, entries);
    var p, s := PlanEndingWith(ctx, derive, entries, e);
    var q, t := PlanEndingWith(ctx, derive, entries, f);
    assert p.records[e.key] != q.records[e.key];
    assert PlansOf(ctx, derive, entries, s, plan, p) && PlansOf(ctx, derive, entries, t, plan, q);
  }

  lemma PlanEndingWith(ctx: Context, derive: Derive, entries: seq<Entry>, e: Entry)
    returns (plan: Plan, shuffled: seq<Entry>)
    requires e in entries
    ensures multiset(entries) == multiset(shuffled) && IsPlan(ctx, derive, shuffled, plan)
    ensures e.key in plan.records && plan.records[e.key] == Citing(e, plan.records[e.key].resolution)
  {
    hide IsPlan;
    var i :| 0 <= i < |entries| && entries[i] == e;
    var others := entries[..i] + entries[i + 1..];
    assert entries == entries[..i] + [e] + entries[i + 1..];
    shuffled := others + [e];
    assert multiset(entries) == multiset(shuffled);
    plan := PlanExists(ctx, derive, shuffled);
    RecordsExact(ctx, derive, others + [e], plan, e.key);
    LastIs(others, e);
  }

  lemma LastIs(others: seq<Entry>, e: Entry)
    ensures e in others + [e] && LastFor(others + [e], e.key) == e
  {
    assert (others + [e])[|others|] == e;
    assert (others + [e])[..|others|] == others;
  }

  lemma PlanExists(ctx: Context, derive: Derive, entries: seq<Entry>) returns (plan: Plan)
    ensures IsPlan(ctx, derive, entries, plan)
  {
    var claims := ClaimsExist(ctx, derive, entries, |entries|);
    assert entries[..|entries|] == entries;
    plan := PlanFor(ctx, derive, claims);
  }

  lemma NoClaims(ctx: Context, derive: Derive)
    ensures ClaimsOf(ctx, derive, [], map[])
  {
  }

  lemma {:induction false} ClaimsExist(ctx: Context, derive: Derive, entries: seq<Entry>,
                                       n: nat) returns (claims: map<Key, Claim>)
    requires n <= |entries|
    ensures ClaimsOf(ctx, derive, entries[..n], claims)
  {
    hide ClaimsOf, NextClaim;
    if n == 0 {
      claims := map[];
      assert entries[..0] == [];
      NoClaims(ctx, derive);
    } else {
      var before := ClaimsExist(ctx, derive, entries, n - 1);
      ClaimsStep(ctx, derive, entries, n - 1, before);
      var e := entries[n - 1];
      claims := before[e.key := NextClaim(ctx, derive, if e.key in before then before[e.key] else Unnamed, e)];
    }
  }

  /** Two entries for one concept under two labels: the record carries the label listed last. */
  lemma RecordFollowsOrder(ctx: Context, derive: Derive, k: Key, a: string, b: string, plan: Plan, other: Plan)
    requires a != b
    requires var e, f := Entry(k, a, None, "", ""), Entry(k, b, None, "", "");
      IsPlan(ctx, derive, [e, f], plan) && IsPlan(ctx, derive, [f, e], other)
    ensures k in plan.records && k in other.records && plan.records[k].words == b && other.records[k].words == a
    ensures plan.records != other.records
  {
    var e, f := Entry(k, a, None, "", ""), Entry(k, b, None, "", "");
    hide IsPlan;
    RecordsExact(ctx, derive, [e, f], plan, k);
    RecordsExact(ctx, derive, [f, e], other, k);
    LastIs([e], f);
    LastIs([f], e);
    assert [e] + [f] == [e, f] && [f] + [e] == [f, e] && e in [e, f] && e in [f, e];
  }

  lemma ShuffledEntriesFor(entries: seq<Entry>, shuffled: seq<Entry>, k: Key)
    requires multiset(entries) == multiset(shuffled)
    ensures multiset(EntriesFor(entries, k)) == multiset(EntriesFor(shuffled, k))
    ensures |EntriesFor(entries, k)| == |EntriesFor(shuffled, k)|
  {
    forall e ensures multiset(EntriesFor(entries, k))[e] == multiset(EntriesFor(shuffled, k))[e] {
      CountFor(entries, k, e);
      CountFor(shuffled, k, e);
    }
    assert |EntriesFor(entries, k)| == |multiset(EntriesFor(entries, k))|;
  }

  lemma {:induction false} CountFor(entries: seq<Entry>, k: Key, e: Entry)
    ensures multiset(EntriesFor(entries, k))[e] == if e.key == k then multiset(entries)[e] else 0
  {
    if entries != [] {
      var before, last := entries[..|entries| - 1], entries[|entries| - 1];
      CountFor(before, k, e);
      assert entries == before + [last];
    }
  }

  /** Two entities may swap names. */
  lemma SwapAllowed(ctx: Context, derive: Derive, ea: Entry, eb: Entry, plan: Plan)
    requires ea.key.EntityKey? && eb.key.EntityKey? && ea.key != eb.key
    requires ctx.entities.Keys == {ea.key.entity, eb.key.entity}
    requires derive(ea) == Some(eb.key.entity) && derive(eb) == Some(ea.key.entity)
    requires IsPlan(ctx, derive, [ea, eb], plan)
    ensures LookUp(plan, ea.key) == eb.key.entity && LookUp(plan, eb.key) == ea.key.entity
  {
    hide EntriesFor, ClaimOf, Stable, LookUp;
    var claims :| ClaimsOf(ctx, derive, [ea, eb], claims) && plan == PlanFor(ctx, derive, claims);
    SwapClaims(ctx, derive, ea, eb, claims);
    SwapStable(ctx, ea.key, eb.key, Targets(claims));
    LookUpIsEmitted(ctx, derive, claims, ea.key);
    LookUpIsEmitted(ctx, derive, claims, eb.key);
  }

  lemma SwapStable(ctx: Context, ka: Key, kb: Key, targets: map<Key, string>)
    requires ka.EntityKey? && kb.EntityKey? && ka != kb && ctx.entities.Keys == {ka.entity, kb.entity}
    requires targets == map[ka := Generated(kb), kb := Generated(ka)]
    ensures Stable(Concepts(ctx), targets, targets.Keys) == {ka, kb}
  {
    forall k, o | k in targets && o in Concepts(ctx) && o != k && SameNamespace(o, k)
      ensures Emitted(targets, targets.Keys, o) != targets[k]
    {
      assert o.entity in ctx.entities.Keys;
    }
    StableKeepsAll(Concepts(ctx), targets, targets.Keys);
  }

  lemma SwapClaims(ctx: Context, derive: Derive, ea: Entry, eb: Entry, claims: map<Key, Claim>)
    requires ea.key != eb.key && ClaimsOf(ctx, derive, [ea, eb], claims)
    requires Claimable(ctx, ea.key) && Claimable(ctx, eb.key) && derive(ea).Some? && derive(eb).Some?
    ensures Targets(claims) == map[ea.key := derive(ea).value, eb.key := derive(eb).value]
  {
    hide ClaimsOf, EntriesFor;
    forall k ensures k in claims <==> k == ea.key || k == eb.key {
      EntriesOfTwo(ea, eb, k);
      ClaimAt(ctx, derive, [ea, eb], claims, k);
    }
    EntriesOfTwo(ea, eb, ea.key);
    EntriesOfTwo(ea, eb, eb.key);
    ClaimAt(ctx, derive, [ea, eb], claims, ea.key);
    ClaimAt(ctx, derive, [ea, eb], claims, eb.key);
  }

  lemma ClaimAt(ctx: Context, derive: Derive, entries: seq<Entry>, claims: map<Key, Claim>, k: Key)
    requires ClaimsOf(ctx, derive, entries, claims)
    ensures k in claims <==> EntriesFor(entries, k) != []
    ensures k in claims ==> claims[k] == ClaimOf(ctx, derive, k, EntriesFor(entries, k))
  {
    hide EntriesFor;
  }

  lemma EntriesOfTwo(ea: Entry, eb: Entry, k: Key)
    requires ea.key != eb.key
    ensures EntriesFor([ea, eb], k) == if k == ea.key then [ea] else if k == eb.key then [eb] else []
  {
    assert [ea, eb][..1] == [ea] && [ea][..0] == [];
    assert EntriesFor([ea], k) == if k == ea.key then [ea] else [];
  }
}
