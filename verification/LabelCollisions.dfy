/**
 Attribute labels shared by several entities, and how policy `qualify` renames
 them (src/r2g/csi.py). Policy `roles` is not part of this model.
 */
module LabelCollisions {
  import opened Names
  import opened Characters

  datatype Policy = Off | Warn | Qualify

  datatype Property = Property(name: string, details: string)

  datatype Entity = Entity(name: string, properties: seq<Property>)

  /** One label as one entity carries it. */
  datatype Occurrence = Occurrence(entity: string, name: string)

  /** Physical properties by conceptual name, in insertion order: (name, spec). */
  type Specs = seq<(string, string)>

  datatype Outcome =
    | Reported
    | JoinKey
    | Unresolved(clashes: set<string>)
    | Qualified(renamedTo: map<string, string>)

  datatype Record = Record(name: string, entities: set<string>, outcome: Outcome)

  datatype Setting = Setting(table: CharTable, policy: Policy, joinKeys: set<string>)

  /** `Contract` and `renewalDate` make `contractRenewalDate`. */
  function QualifiedLabel(table: CharTable, entity: string, name: string): string
  {
    (if entity == [] then [] else table.lower(entity[0]) + entity[1..])
    + (if name == [] then [] else table.upper(name[0]) + name[1..])
  }

  /** Only the two first letters change case: the label ends in the name, and begins with the entity. */
  lemma QualifiedReads(table: CharTable, c: char, entity: string, d: char, name: string)
    ensures QualifiedLabel(table, [c] + entity, [d] + name) == table.lower(c) + entity + table.upper(d) + name
    ensures table.lower('C') == "c" && table.upper('r') == "R" ==>
      QualifiedLabel(table, "Contract", "renewalDate") == "contractRenewalDate"
  {
    assert ([c] + entity)[1..] == entity && ([d] + name)[1..] == name;
    assert "Contract"[1..] == "ontract" && "renewalDate"[1..] == "enewalDate";
    assert table.lower(c) + entity + (table.upper(d) + name) == table.lower(c) + entity + table.upper(d) + name;
  }

  // ----- who carries which label

  function OccurrencesIn(e: Entity): seq<Occurrence>
  {
    seq(|e.properties|, j requires 0 <= j < |e.properties| => Occurrence(e.name, e.properties[j].name))
  }

  /** Every label of the document, in document order. */
  function Occurrences(entities: seq<Entity>): seq<Occurrence>
  {
    if entities == [] then []
    else Occurrences(entities[..|entities| - 1]) + OccurrencesIn(entities[|entities| - 1])
  }

  /** The entities carrying a label, once for each time they carry it. */
  function OwnerList(occ: seq<Occurrence>, name: string): seq<string>
  {
    if occ == [] then []
    else OwnerList(occ[..|occ| - 1], name)
         + (if occ[|occ| - 1].name == name then [occ[|occ| - 1].entity] else [])
  }

  ghost function LabelsCarried(occ: seq<Occurrence>): set<string>
  {
    set k | 0 <= k < |occ| :: occ[k].name
  }

  ghost function Colliding(occ: seq<Occurrence>): set<string>
  {
    set l | l in LabelsCarried(occ) && |OwnerList(occ, l)| > 1
  }

  ghost function HeldOnce(occ: seq<Occurrence>): set<string>
  {
    set l | l in LabelsCarried(occ) && |OwnerList(occ, l)| == 1
  }

  ghost function Owners(occ: seq<Occurrence>, name: string): set<string>
  {
    Elements(OwnerList(occ, name))
  }

  lemma {:induction false} OwnerListMembers(occ: seq<Occurrence>, name: string)
    ensures forall e :: e in OwnerList(occ, name) <==> Occurrence(e, name) in occ
    ensures OwnerList(occ, name) == [] <==> name !in LabelsCarried(occ)
  {
    if occ != [] {
      var before, last := occ[..|occ| - 1], occ[|occ| - 1];
      OwnerListMembers(before, name);
      assert occ == before + [last];
      CarriedNext(before, last, name);
    }
  }

  lemma CarriedNext(before: seq<Occurrence>, last: Occurrence, name: string)
    ensures name in LabelsCarried(before + [last]) <==> name in LabelsCarried(before) || name == last.name
  {
    var occ := before + [last];
    assert occ[|before|] == last;
    if name in LabelsCarried(before) {
      var k :| 0 <= k < |before| && before[k].name == name;
      assert occ[k].name == name;
    }
    if name in LabelsCarried(occ) {
      var k :| 0 <= k < |occ| && occ[k].name == name;
      assert k < |before| ==> before[k].name == name;
    }
  }

  /** A label collides exactly when it occurs at two places. */
  lemma {:induction false} CollidingTwice(occ: seq<Occurrence>, name: string)
    ensures |OwnerList(occ, name)| > 1 <==> exists i, j :: 0 <= i < j < |occ| && occ[i].name == occ[j].name == name
  {
    if occ != [] {
      var before, last := occ[..|occ| - 1], occ[|occ| - 1];
      CollidingTwice(before, name);
      OwnerListMembers(before, name);
      if last.name == name && OwnerList(before, name) != [] {
        var i :| 0 <= i < |before| && before[i].name == name;
        assert occ[i].name == occ[|occ| - 1].name == name;
      }
      if i, j :| 0 <= i < j < |occ| && occ[i].name == occ[j].name == name {
        if j < |before| {
          assert before[i].name == before[j].name == name;
        } else {
          assert before[i].name in LabelsCarried(before);
        }
      }
      if i, j :| 0 <= i < j < |before| && before[i].name == before[j].name == name {
        assert occ[i].name == occ[j].name == name;
      }
    }
  }

  // ----- deciding about one colliding label

  function Clashes(table: CharTable, owners: set<string>, occupied: set<string>, name: string): set<string>
  {
    set n | n in owners && IsClash(table, owners, occupied, name, n) :: QualifiedLabel(table, n, name)
  }

  /** The candidate of `n` is occupied, or another owner has the same candidate. */
  predicate IsClash(table: CharTable, owners: set<string>, occupied: set<string>, name: string, n: string)
  {
    || QualifiedLabel(table, n, name) in occupied
    || exists m :: m in owners && m != n && QualifiedLabel(table, m, name) == QualifiedLabel(table, n, name)
  }

  function Candidates(table: CharTable, owners: set<string>, name: string): map<string, string>
  {
    map n | n in owners :: QualifiedLabel(table, n, name)
  }

  function Decide(st: Setting, owners: set<string>, occupied: set<string>, name: string): Outcome
  {
    if name in st.joinKeys then JoinKey
    else if !st.policy.Qualify? then Reported
    else
      var clashes := Clashes(st.table, owners, occupied, name);
      if clashes != {} then Unresolved(clashes) else Qualified(Candidates(st.table, owners, name))
  }

  /** The names a decision occupies from then on. */
  function Takes(outcome: Outcome, name: string): set<string>
  {
    if outcome.Qualified? then outcome.renamedTo.Values else {name}
  }

  /** The occupied names after the first labels have been decided. */
  ghost function Occupied(st: Setting, occ: seq<Occurrence>, names: seq<string>): set<string>
  {
    if names == [] then HeldOnce(occ)
    else
      var last := names[|names| - 1];
      var occupied := Occupied(st, occ, names[..|names| - 1]);
      occupied + Takes(Decide(st, Owners(occ, last), occupied, last), last)
  }

  /** What is decided about the `i`-th colliding label. */
  ghost function OutcomeAt(st: Setting, occ: seq<Occurrence>, names: seq<string>, i: nat): Outcome
    requires i < |names|
  {
    Decide(st, Owners(occ, names[i]), Occupied(st, occ, names[..i]), names[i])
  }

  lemma OccupiedNext(st: Setting, occ: seq<Occurrence>, names: seq<string>, i: nat)
    requires i < |names|
    ensures Occupied(st, occ, names[..i + 1])
         == Occupied(st, occ, names[..i]) + Takes(OutcomeAt(st, occ, names, i), names[i])
  {
    assert names[..i + 1][..i] == names[..i];
  }

  lemma {:induction false} OccupiedGrows(st: Setting, occ: seq<Occurrence>, names: seq<string>, i: nat, j: nat)
    requires i <= j <= |names|
    ensures Occupied(st, occ, names[..i]) <= Occupied(st, occ, names[..j])
    decreases j
  {
    hide Occupied, OutcomeAt, Takes;
    if i < j {
      OccupiedGrows(st, occ, names, i, j - 1);
      OccupiedNext(st, occ, names, j - 1);
    }
  }

  lemma OccupiedKeeps(st: Setting, occ: seq<Occurrence>, names: seq<string>, i: nat, j: nat)
    requires i <= j <= |names|
    ensures HeldOnce(occ) <= Occupied(st, occ, names[..i]) <= Occupied(st, occ, names[..j])
  {
    OccupiedGrows(st, occ, names, 0, i);
    OccupiedGrows(st, occ, names, i, j);
    assert names[..0] == [];
  }

  // ----- the new names

  /** A qualified label of `names`, with its owner. */
  ghost predicate IsRenamed(st: Setting, occ: seq<Occurrence>, names: seq<string>, i: nat, n: string)
  {
    i < |names| && OutcomeAt(st, occ, names, i).Qualified? && n in Owners(occ, names[i])
  }

  lemma ClashListed(table: CharTable, owners: set<string>, occupied: set<string>, name: string, n: string)
    requires n in owners
    ensures IsClash(table, owners, occupied, name, n) ==> Clashes(table, owners, occupied, name) != {}
  {
    if IsClash(table, owners, occupied, name, n) {
      assert QualifiedLabel(table, n, name) in Clashes(table, owners, occupied, name);
    }
  }

  /** A new name differs from every name occupied when it was made, and its own
      group gives it to nobody else. */
  lemma NewNameUnoccupied(st: Setting, occ: seq<Occurrence>, names: seq<string>, i: nat, n: string)
    requires IsRenamed(st, occ, names, i, n)
    ensures QualifiedLabel(st.table, n, names[i]) !in Occupied(st, occ, names[..i])
    ensures QualifiedLabel(st.table, n, names[i]) in Occupied(st, occ, names[..i + 1])
    ensures forall m :: m in Owners(occ, names[i]) && m != n ==>
              QualifiedLabel(st.table, m, names[i]) != QualifiedLabel(st.table, n, names[i])
  {
    var owners, occupied := Owners(occ, names[i]), Occupied(st, occ, names[..i]);
    var candidates := OutcomeAt(st, occ, names, i).renamedTo;
    OccupiedNext(st, occ, names, i);
    assert candidates[n] in candidates.Values;
    ClashListed(st.table, owners, occupied, names[i], n);
  }

  /** Every new label differs from every other new label, from every label held
      once, and from every label kept by a group decided earlier. */
  lemma NewNamesSafe(st: Setting, occ: seq<Occurrence>, names: seq<string>, i: nat, n: string)
    requires IsRenamed(st, occ, names, i, n)
    ensures QualifiedLabel(st.table, n, names[i]) !in HeldOnce(occ)
    ensures forall j: nat, m :: IsRenamed(st, occ, names, j, m) && (j, m) != (i, n) ==>
              QualifiedLabel(st.table, m, names[j]) != QualifiedLabel(st.table, n, names[i])
    ensures forall j :: 0 <= j < i && !OutcomeAt(st, occ, names, j).Qualified? ==>
              names[j] != QualifiedLabel(st.table, n, names[i])
  {
    NewNameUnoccupied(st, occ, names, i, n);
    OccupiedKeeps(st, occ, names, i, i);
    forall j: nat, m | IsRenamed(st, occ, names, j, m) && (j, m) != (i, n)
      ensures QualifiedLabel(st.table, m, names[j]) != QualifiedLabel(st.table, n, names[i])
    {
      NewNameUnoccupied(st, occ, names, j, m);
      if j < i {
        OccupiedKeeps(st, occ, names, j + 1, i);
      } else if i < j {
        OccupiedKeeps(st, occ, names, i + 1, j);
      }
    }
    forall j | 0 <= j < i && !OutcomeAt(st, occ, names, j).Qualified?
      ensures names[j] != QualifiedLabel(st.table, n, names[i])
    {
      OccupiedNext(st, occ, names, j);
      OccupiedKeeps(st, occ, names, j + 1, i);
    }
  }

  // ----- renaming

  /** The renames the first labels lead to. */
  ghost function Renames(st: Setting, occ: seq<Occurrence>, names: seq<string>): map<Occurrence, string>
  {
    if names == [] then map[]
    else
      var i := |names| - 1;
      WithRenames(Renames(st, occ, names[..i]), OutcomeAt(st, occ, names, i), names[i])
  }

  function WithRenames(renames: map<Occurrence, string>, outcome: Outcome, name: string): map<Occurrence, string>
  {
    if outcome.Qualified? then
      renames + map n | n in outcome.renamedTo :: Occurrence(n, name) := outcome.renamedTo[n]
    else renames
  }

  function NewName(renames: map<Occurrence, string>, o: Occurrence): string
  {
    if o in renames then renames[o] else o.name
  }

  /** The label of `o` is among `names` and its group was qualified. */
  ghost predicate WasRenamed(st: Setting, occ: seq<Occurrence>, names: seq<string>, o: Occurrence)
  {
    exists i: nat :: IsRenamed(st, occ, names, i, o.entity) && names[i] == o.name
  }

  lemma WasRenamedNext(st: Setting, occ: seq<Occurrence>, names: seq<string>, o: Occurrence)
    requires names != []
    ensures var n := |names| - 1; WasRenamed(st, occ, names, o) <==>
      (WasRenamed(st, occ, names[..n], o) || (IsRenamed(st, occ, names, n, o.entity) && names[n] == o.name))
  {
    hide Decide, Owners, Occupied;
    var n := |names| - 1;
    forall i: nat | i < n
      ensures IsRenamed(st, occ, names[..n], i, o.entity) <==> IsRenamed(st, occ, names, i, o.entity)
    {
      assert names[..n][..i] == names[..i];
    }
    if i: nat :| IsRenamed(st, occ, names, i, o.entity) && names[i] == o.name && i < n {
      assert IsRenamed(st, occ, names[..n], i, o.entity) && names[..n][i] == o.name;
    }
    if i: nat :| IsRenamed(st, occ, names[..n], i, o.entity) && names[..n][i] == o.name {
      assert IsRenamed(st, occ, names, i, o.entity) && names[i] == o.name;
    }
  }

  lemma LastRenames(st: Setting, occ: seq<Occurrence>, names: seq<string>, renames: map<Occurrence, string>,
                    o: Occurrence)
    requires names != []
    ensures var n := |names| - 1;
      var more := WithRenames(renames, OutcomeAt(st, occ, names, n), names[n]);
      var here := IsRenamed(st, occ, names, n, o.entity) && names[n] == o.name;
      && (o in more <==> o in renames || here)
      && (o in more ==> more[o] == if here then QualifiedLabel(st.table, o.entity, o.name) else renames[o])
  {
    hide QualifiedLabel, Clashes, Occupied;
  }

  lemma {:induction false} RenamesExact(st: Setting, occ: seq<Occurrence>, names: seq<string>, o: Occurrence)
    ensures o in Renames(st, occ, names) <==> WasRenamed(st, occ, names, o)
    ensures o in Renames(st, occ, names) ==> Renames(st, occ, names)[o] == QualifiedLabel(st.table, o.entity, o.name)
  {
    hide WasRenamed, IsRenamed, QualifiedLabel, OutcomeAt, WithRenames;
    if names != [] {
      RenamesExact(st, occ, names[..|names| - 1], o);
      WasRenamedNext(st, occ, names, o);
      LastRenames(st, occ, names, Renames(st, occ, names[..|names| - 1]), o);
    } else {
      NeverRenamed(st, occ, o);
    }
  }

  lemma NeverRenamed(st: Setting, occ: seq<Occurrence>, o: Occurrence)
    ensures !WasRenamed(st, occ, [], o)
  {
  }

  ghost function AllRenames(st: Setting, occ: seq<Occurrence>): map<Occurrence, string>
  {
    Renames(st, occ, Listing(Colliding(occ)))
  }

  /** The label a place ends up with. */
  ghost function After(st: Setting, occ: seq<Occurrence>, k: nat): string
    requires k < |occ|
  {
    NewName(AllRenames(st, occ), occ[k])
  }

  /** Whether the label was carried by one entity only, or its group was qualified, or neither. */
  datatype Fate = Unique | Moved(group: nat) | Kept(group: nat)

  ghost function FateOf(st: Setting, occ: seq<Occurrence>, name: string): Fate
  {
    var names := Listing(Colliding(occ));
    if name !in names then Unique
    else
      var i: nat :| i < |names| && names[i] == name;
      if OutcomeAt(st, occ, names, i).Qualified? then Moved(i) else Kept(i)
  }

  /** What `After` is, by the label's fate. */
  lemma AfterByFate(st: Setting, occ: seq<Occurrence>, k: nat)
    requires k < |occ|
    ensures var names, fate := Listing(Colliding(occ)), FateOf(st, occ, occ[k].name);
            match fate
            case Unique => After(st, occ, k) == occ[k].name && occ[k].name in HeldOnce(occ)
            case Kept(i) => i < |names| && names[i] == occ[k].name == After(st, occ, k)
                            && !OutcomeAt(st, occ, names, i).Qualified?
            case Moved(i) => IsRenamed(st, occ, names, i, occ[k].entity) && names[i] == occ[k].name
                             && After(st, occ, k) == QualifiedLabel(st.table, occ[k].entity, occ[k].name)
  {
    var names, o := Listing(Colliding(occ)), occ[k];
    AscendingNoDuplicates(names);
    RenamesExact(st, occ, names, o);
    OwnerListMembers(occ, o.name);
    assert o.name in LabelsCarried(occ);
    assert o.name in names <==> o.name in Elements(names);
    if o.name in names {
      var i: nat :| i < |names| && names[i] == o.name;
      forall j: nat | j < |names| && names[j] == o.name ensures j == i {
      }
    }
  }

  /** A group kept as it is, although an earlier group was given its label as a new name. */
  ghost predicate KeptTooLate(st: Setting, occ: seq<Occurrence>, i: nat, n: string, j: nat)
  {
    var names := Listing(Colliding(occ));
    && i < j < |names| && IsRenamed(st, occ, names, i, n) && !OutcomeAt(st, occ, names, j).Qualified?
    && names[j] == QualifiedLabel(st.table, n, names[i])
  }

  /** Two labels that differed are the same afterwards. */
  ghost predicate MadeEqual(st: Setting, occ: seq<Occurrence>, x: nat, y: nat)
  {
    x < |occ| && y < |occ| && occ[x].name != occ[y].name && After(st, occ, x) == After(st, occ, y)
  }

  lemma MadeEqualCause(st: Setting, occ: seq<Occurrence>, x: nat, y: nat)
    requires MadeEqual(st, occ, x, y)
    ensures exists i, n, j :: KeptTooLate(st, occ, i, n, j)
  {
    var fx, fy := FateOf(st, occ, occ[x].name), FateOf(st, occ, occ[y].name);
    if fx.Moved? {
      MovedMeetsKept(st, occ, x, y);
      assert KeptTooLate(st, occ, fx.group, occ[x].entity, fy.group);
    } else if fy.Moved? {
      MovedMeetsKept(st, occ, y, x);
      assert KeptTooLate(st, occ, fy.group, occ[y].entity, fx.group);
    } else {
      KeptUntouched(st, occ, x);
      KeptUntouched(st, occ, y);
    }
  }

  lemma MovedMeetsKept(st: Setting, occ: seq<Occurrence>, x: nat, y: nat)
    requires MadeEqual(st, occ, x, y) && FateOf(st, occ, occ[x].name).Moved?
    ensures FateOf(st, occ, occ[y].name).Kept?
    ensures KeptTooLate(st, occ, FateOf(st, occ, occ[x].name).group, occ[x].entity, FateOf(st, occ, occ[y].name).group)
  {
    var names, fx, fy := Listing(Colliding(occ)), FateOf(st, occ, occ[x].name), FateOf(st, occ, occ[y].name);
    AfterByFate(st, occ, x);
    AfterByFate(st, occ, y);
    var i := fx.group;
    NewNamesSafe(st, occ, names, i, occ[x].entity);
    assert !fy.Moved? && !fy.Unique?;
  }

  /** Labels that differed become equal exactly when a group is kept after an
      earlier group was given its label: the check does not look ahead. */
  lemma NewCollisionExactly(st: Setting, occ: seq<Occurrence>)
    ensures (exists x, y :: MadeEqual(st, occ, x, y)) <==> (exists i, n, j :: KeptTooLate(st, occ, i, n, j))
  {
    if x, y :| MadeEqual(st, occ, x, y) {
      MadeEqualCause(st, occ, x, y);
    }
    if i, n, j :| KeptTooLate(st, occ, i, n, j) {
      KeptTooLateEffect(st, occ, i, n, j);
    }
  }

  lemma KeptTooLateEffect(st: Setting, occ: seq<Occurrence>, i: nat, n: string, j: nat)
    requires KeptTooLate(st, occ, i, n, j)
    ensures exists x, y :: MadeEqual(st, occ, x, y)
  {
    var names := Listing(Colliding(occ));
    OwnerListMembers(occ, names[i]);
    var x: nat :| x < |occ| && occ[x] == Occurrence(n, names[i]);
    assert names[j] in Elements(names);
    var y: nat :| y < |occ| && occ[y].name == names[j];
    KeptTooLateAt(st, occ, i, n, j, x, y);
  }

  lemma KeptTooLateAt(st: Setting, occ: seq<Occurrence>, i: nat, n: string, j: nat, x: nat, y: nat)
    requires KeptTooLate(st, occ, i, n, j)
    requires var names := Listing(Colliding(occ));
      x < |occ| && y < |occ| && occ[x] == Occurrence(n, names[i]) && occ[y].name == names[j]
    ensures MadeEqual(st, occ, x, y)
  {
    AscendingNoDuplicates(Listing(Colliding(occ)));
    AfterByFate(st, occ, x);
    AfterByFate(st, occ, y);
  }

  /** With each label once in an entity: two places carry one label afterwards
      exactly when they did before and their group was kept, or a group was kept too late. */
  lemma SharedAfter(st: Setting, occ: seq<Occurrence>, x: nat, y: nat)
    requires NoDuplicates(occ) && x < y < |occ| && occ[x].name == occ[y].name
    ensures After(st, occ, x) == After(st, occ, y) <==> FateOf(st, occ, occ[x].name).Kept?
  {
    CollidingTwice(occ, occ[x].name);
    AfterByFate(st, occ, x);
    AfterByFate(st, occ, y);
    var fate := FateOf(st, occ, occ[x].name);
    assert occ[x].entity != occ[y].entity;
    if fate.Moved? {
      NewNamesSafe(st, occ, Listing(Colliding(occ)), fate.group, occ[x].entity);
    }
  }

  /** If every group is qualified, each label is carried at one place only. */
  lemma AllQualifiedUnique(st: Setting, occ: seq<Occurrence>, x: nat, y: nat)
    requires NoDuplicates(occ) && x < y < |occ|
    requires var names := Listing(Colliding(occ));
      forall i :: 0 <= i < |names| ==> OutcomeAt(st, occ, names, i).Qualified?
    ensures After(st, occ, x) != After(st, occ, y)
  {
    AfterByFate(st, occ, x);
    AfterByFate(st, occ, y);
    if occ[x].name == occ[y].name {
      SharedAfter(st, occ, x, y);
    } else if After(st, occ, x) == After(st, occ, y) {
      MadeEqualCause(st, occ, x, y);
      assert false;
    }
  }

  /** A group that is not qualified keeps its label everywhere. */
  lemma KeptUntouched(st: Setting, occ: seq<Occurrence>, k: nat)
    requires k < |occ| && !FateOf(st, occ, occ[k].name).Moved?
    ensures After(st, occ, k) == occ[k].name
  {
    AfterByFate(st, occ, k);
  }

  // ----- the document

  function RenamedEntity(renames: map<Occurrence, string>, e: Entity): Entity
  {
    e.(properties := seq(|e.properties|, j requires 0 <= j < |e.properties| =>
      e.properties[j].(name := NewName(renames, Occurrence(e.name, e.properties[j].name)))))
  }

  function RenamedEntities(renames: map<Occurrence, string>, entities: seq<Entity>): seq<Entity>
  {
    seq(|entities|, i requires 0 <= i < |entities| => RenamedEntity(renames, entities[i]))
  }

  /** The labels of the renamed document are the labels `After` gives, place by place. */
  lemma {:induction false} RenamedOccurrences(renames: map<Occurrence, string>, entities: seq<Entity>)
    ensures |Occurrences(RenamedEntities(renames, entities))| == |Occurrences(entities)|
    ensures forall k :: 0 <= k < |Occurrences(entities)| ==>
      Occurrences(RenamedEntities(renames, entities))[k]
      == Occurrence(Occurrences(entities)[k].entity, NewName(renames, Occurrences(entities)[k]))
  {
    if entities != [] {
      var before, last := entities[..|entities| - 1], entities[|entities| - 1];
      RenamedOccurrences(renames, before);
      var renamed := RenamedEntities(renames, entities);
      assert renamed[..|renamed| - 1] == RenamedEntities(renames, before);
      assert renamed[|renamed| - 1] == RenamedEntity(renames, last);
    }
  }

  predicate HasKey(specs: Specs, key: string)
  {
    exists i :: 0 <= i < |specs| && specs[i].0 == key
  }

  /** Python's `d[key] = spec`: a key already there keeps its place. */
  function Put(specs: Specs, key: string, spec: string): Specs
  {
    if specs == [] then [(key, spec)]
    else if specs[0].0 == key then [(key, spec)] + specs[1..]
    else [specs[0]] + Put(specs[1..], key, spec)
  }

  lemma {:induction false} PutNew(specs: Specs, key: string, spec: string)
    requires forall i :: 0 <= i < |specs| ==> specs[i].0 != key
    ensures Put(specs, key, spec) == specs + [(key, spec)]
  {
    if specs != [] {
      PutNew(specs[1..], key, spec);
    }
  }

  /** The dictionary rebuilt under new keys. */
  function Rekeyed(renames: map<Occurrence, string>, entity: string, specs: Specs): Specs
  {
    if specs == [] then []
    else
      var last := specs[|specs| - 1];
      Put(Rekeyed(renames, entity, specs[..|specs| - 1]), NewName(renames, Occurrence(entity, last.0)), last.1)
  }

  /** Under distinct new keys every spec is kept, in its place. */
  lemma {:induction false} RekeyedKeepsSpecs(renames: map<Occurrence, string>, entity: string, specs: Specs)
    requires forall i, j :: 0 <= i < j < |specs| ==>
      NewName(renames, Occurrence(entity, specs[i].0)) != NewName(renames, Occurrence(entity, specs[j].0))
    ensures |Rekeyed(renames, entity, specs)| == |specs|
    ensures forall i :: 0 <= i < |specs| ==>
      Rekeyed(renames, entity, specs)[i] == (NewName(renames, Occurrence(entity, specs[i].0)), specs[i].1)
  {
    if specs != [] {
      var last := specs[|specs| - 1];
      RekeyedKeepsSpecs(renames, entity, specs[..|specs| - 1]);
      PutNew(Rekeyed(renames, entity, specs[..|specs| - 1]), NewName(renames, Occurrence(entity, last.0)), last.1);
    }
  }

  predicate HasRenames(renames: map<Occurrence, string>, entity: string)
  {
    exists o :: o in renames && o.entity == entity
  }

  /** The physical side after the entities have been gone through. */
  ghost function RekeyedAll(renames: map<Occurrence, string>, entities: seq<Entity>,
                            physical: map<string, Specs>): map<string, Specs>
  {
    if entities == [] then physical
    else RekeyOne(renames, entities[|entities| - 1].name, RekeyedAll(renames, entities[..|entities| - 1], physical))
  }

  ghost function RekeyOne(renames: map<Occurrence, string>, name: string, physical: map<string, Specs>): map<string,
                          Specs>
  {
    if HasRenames(renames, name) && name in physical then physical[name := Rekeyed(renames, name, physical[name])]
    else physical
  }

  predicate IsListed(entities: seq<Entity>, name: string)
  {
    exists i :: 0 <= i < |entities| && entities[i].name == name
  }

  lemma {:induction false} RekeyedAllAt(renames: map<Occurrence, string>, entities: seq<Entity>,
                                        physical: map<string, Specs>, name: string)
    requires forall i, j :: 0 <= i < j < |entities| ==> entities[i].name != entities[j].name
    ensures RekeyedAll(renames, entities, physical).Keys == physical.Keys
    ensures name in physical ==>
      RekeyedAll(renames, entities, physical)[name] ==
        if HasRenames(renames, name) && IsListed(entities, name) then Rekeyed(renames, name, physical[name]) else physical[name]
  {
    if entities != [] {
      var before := entities[..|entities| - 1];
      RekeyedAllAt(renames, before, physical, name);
      assert forall i :: 0 <= i < |before| ==> before[i] == entities[i];
      if i :| 0 <= i < |entities| && entities[i].name == name && i < |before| {
        assert before[i].name == name;
      }
    }
  }

  /** The entity's physical properties are those of its conceptual side, in order. */
  ghost predicate Mirrors(e: Entity, specs: Specs)
  {
    |specs| == |e.properties| && forall k :: 0 <= k < |specs| ==> specs[k].0 == e.properties[k].name
  }

  /** Where the entity's new labels stay distinct, its physical side still
      mirrors it and every spec stays with its property. */
  lemma PhysicalFollows(renames: map<Occurrence, string>, entities: seq<Entity>, physical: map<string, Specs>, i: nat)
    requires forall i, j :: 0 <= i < j < |entities| ==> entities[i].name != entities[j].name
    requires i < |entities| && entities[i].name in physical && Mirrors(entities[i], physical[entities[i].name])
    requires forall j, k :: 0 <= j < k < |entities[i].properties| ==>
      RenamedEntity(renames, entities[i]).properties[j].name != RenamedEntity(renames, entities[i]).properties[k].name
    ensures entities[i].name in RekeyedAll(renames, entities, physical)
    ensures var specs, after := physical[entities[i].name], RekeyedAll(renames, entities, physical)[entities[i].name];
      && Mirrors(RenamedEntity(renames, entities[i]), after)
      && forall k :: 0 <= k < |specs| ==> after[k].1 == specs[k].1
  {
    var e := entities[i];
    var specs := physical[e.name];
    RekeyedAllAt(renames, entities, physical, e.name);
    if HasRenames(renames, e.name) {
      forall j, k | 0 <= j < k < |specs|
        ensures NewName(renames, Occurrence(e.name, specs[j].0)) != NewName(renames, Occurrence(e.name, specs[k].0))
      {
        assert RenamedEntity(renames, e).properties[j].name != RenamedEntity(renames, e).properties[k].name;
      }
      RekeyedKeepsSpecs(renames, e.name, specs);
    }
  }

  /** A spec is lost exactly when two of the entity's properties get one name. */
  lemma {:induction false} RekeyedLoses(renames: map<Occurrence, string>, entity: string, specs: Specs)
    ensures |Rekeyed(renames, entity, specs)| <= |specs|
    ensures |Rekeyed(renames, entity, specs)| < |specs| <==>
      exists i, j :: 0 <= i < j < |specs| &&
        NewName(renames, Occurrence(entity, specs[i].0)) == NewName(renames, Occurrence(entity, specs[j].0))
    ensures forall key :: HasKey(Rekeyed(renames, entity, specs), key) <==>
      exists i :: 0 <= i < |specs| && NewName(renames, Occurrence(entity, specs[i].0)) == key
  {
    if specs != [] {
      var n := |specs| - 1;
      var before, last := specs[..n], NewName(renames, Occurrence(entity, specs[n].0));
      RekeyedLoses(renames, entity, before);
      PutKeys(Rekeyed(renames, entity, before), last, specs[n].1);
      forall i | 0 <= i < n ensures before[i] == specs[i] {
      }
      if HasKey(Rekeyed(renames, entity, before), last) {
        var i :| 0 <= i < n && NewName(renames, Occurrence(entity, before[i].0)) == last;
        assert NewName(renames, Occurrence(entity, specs[i].0)) == NewName(renames, Occurrence(entity, specs[n].0));
      }
    }
  }

  lemma {:induction false} PutKeys(specs: Specs, key: string, spec: string)
    ensures |Put(specs, key, spec)| == if HasKey(specs, key) then |specs| else |specs| + 1
    ensures forall k :: HasKey(Put(specs, key, spec), k) <==> HasKey(specs, k) || k == key
  {
    if specs != [] {
      PutKeys(specs[1..], key, spec);
      forall k ensures HasKey(specs, k) <==> specs[0].0 == k || HasKey(specs[1..], k) {
        HasKeyHead(specs, k);
      }
      var after := Put(specs, key, spec);
      assert after[1..] == if specs[0].0 == key then specs[1..] else Put(specs[1..], key, spec);
      forall k ensures HasKey(after, k) <==> HasKey(specs, k) || k == key {
        HasKeyHead(after, k);
      }
    } else {
      assert [(key, spec)][0].0 == key;
    }
  }

  lemma HasKeyHead(specs: Specs, k: string)
    requires specs != []
    ensures HasKey(specs, k) <==> specs[0].0 == k || HasKey(specs[1..], k)
  {
    if i :| 0 <= i < |specs[1..]| && specs[1..][i].0 == k {
      assert specs[i + 1].0 == k;
    }
    if i :| 0 < i < |specs| && specs[i].0 == k {
      assert specs[1..][i - 1].0 == k;
    }
  }

  /** The place of an entity's property among the document's labels. */
  lemma {:induction false} PlaceOf(entities: seq<Entity>, i: nat, j: nat)
    requires i < |entities| && j < |entities[i].properties|
    ensures var k := |Occurrences(entities[..i])| + j;
      k < |Occurrences(entities)| && Occurrences(entities)[k] == Occurrence(entities[i].name, entities[i].properties[j].name)
    decreases |entities|
  {
    var before := entities[..|entities| - 1];
    if i == |before| {
      assert entities[..i] == before;
    } else {
      PlaceOf(before, i, j);
      assert before[..i] == entities[..i];
    }
  }

  /** Policy `qualify` on a document with distinct entities, each with distinct
      labels: unless a group is kept too late, the physical side of every entity
      still mirrors its conceptual side, spec by spec. */
  lemma DocumentFollows(st: Setting, entities: seq<Entity>, physical: map<string, Specs>, i: nat)
    requires forall i, j :: 0 <= i < j < |entities| ==> entities[i].name != entities[j].name
    requires NoDuplicates(Occurrences(entities))
    requires !exists g, n, h :: KeptTooLate(st, Occurrences(entities), g, n, h)
    requires i < |entities| && entities[i].name in physical && Mirrors(entities[i], physical[entities[i].name])
    ensures var renames, name := AllRenames(st, Occurrences(entities)), entities[i].name;
      var after := RekeyedAll(renames, entities, physical);
      && name in after && Mirrors(RenamedEntity(renames, entities[i]), after[name])
      && forall k :: 0 <= k < |physical[name]| ==> after[name][k].1 == physical[name][k].1
  {
    hide RekeyedAll, KeptTooLate, AllRenames;
    var e, renames := entities[i], AllRenames(st, Occurrences(entities));
    forall j, k | 0 <= j < k < |e.properties|
      ensures RenamedEntity(renames, e).properties[j].name != RenamedEntity(renames, e).properties[k].name
    {
      PropertiesApart(st, entities, i, j, k);
    }
    PhysicalFollows(renames, entities, physical, i);
  }

  /** Two properties of an entity keep different labels. */
  lemma PropertiesApart(st: Setting, entities: seq<Entity>, i: nat, j: nat, k: nat)
    requires NoDuplicates(Occurrences(entities))
    requires !exists g, n, h :: KeptTooLate(st, Occurrences(entities), g, n, h)
    requires i < |entities| && j < k < |entities[i].properties|
    ensures var after := RenamedEntity(AllRenames(st, Occurrences(entities)), entities[i]);
      |after.properties| == |entities[i].properties| && after.properties[j].name != after.properties[k].name
  {
    hide KeptTooLate, AllRenames, MadeEqual;
    var occ := Occurrences(entities);
    PlaceOf(entities, i, j);
    PlaceOf(entities, i, k);
    var x, y := |Occurrences(entities[..i])| + j, |Occurrences(entities[..i])| + k;
    assert occ[x] != occ[y];
    NeverMadeEqual(st, occ, x, y);
  }

  lemma NeverMadeEqual(st: Setting, occ: seq<Occurrence>, x: nat, y: nat)
    requires !exists g, n, h :: KeptTooLate(st, occ, g, n, h)
    requires x < |occ| && y < |occ| && occ[x].name != occ[y].name
    ensures After(st, occ, x) != After(st, occ, y)
  {
    hide KeptTooLate, After;
    if MadeEqual(st, occ, x, y) {
      MadeEqualCause(st, occ, x, y);
    }
  }

  // ----- what can be told from the document alone

  /** `qualify` would name the label `l` of entity `n` anew. */
  ghost predicate Candidate(st: Setting, occ: seq<Occurrence>, l: string, n: string)
  {
    l in Colliding(occ) && l !in st.joinKeys && n in Owners(occ, l)
  }

  /** No new name is the label of a group decided later. */
  ghost predicate NoneAhead(st: Setting, occ: seq<Occurrence>)
  {
    forall l, n, m :: Candidate(st, occ, l, n) && m in Colliding(occ) && Before(l, m) ==> QualifiedLabel(st.table, n, l) != m
  }

  /** The new names differ from each other, from every label held once, and from every
      join key decided earlier. */
  ghost predicate Spread(st: Setting, occ: seq<Occurrence>)
  {
    && CandidatesDiffer(st, occ)
    && (forall l, n :: Candidate(st, occ, l, n) ==> QualifiedLabel(st.table, n, l) !in HeldOnce(occ))
    && (forall l, n, m :: Candidate(st, occ, l, n) && m in Colliding(occ) && m in st.joinKeys && Before(m, l) ==>
          QualifiedLabel(st.table, n, l) != m)
  }

  ghost predicate CandidatesDiffer(st: Setting, occ: seq<Occurrence>)
  {
    forall l, n, m, o :: Candidate(st, occ, l, n) && Candidate(st, occ, m, o) && (l, n) != (m, o) ==>
      QualifiedLabel(st.table, n, l) != QualifiedLabel(st.table, o, m)
  }

  /** Every colliding label is qualified, but for the join keys. */
  ghost predicate AllQualified(st: Setting, occ: seq<Occurrence>, names: seq<string>)
  {
    forall i :: 0 <= i < |names| && names[i] !in st.joinKeys ==> OutcomeAt(st, occ, names, i).Qualified?
  }

  lemma PlaceInListing(occ: seq<Occurrence>, l: string) returns (i: nat)
    requires l in Colliding(occ)
    ensures i < |Listing(Colliding(occ))| && Listing(Colliding(occ))[i] == l
  {
    var names := Listing(Colliding(occ));
    assert l in Elements(names);
    i :| i < |names| && names[i] == l;
  }

  lemma ListedColliding(occ: seq<Occurrence>, i: nat)
    requires i < |Listing(Colliding(occ))|
    ensures Listing(Colliding(occ))[i] in Colliding(occ)
  {
    assert Listing(Colliding(occ))[i] in Elements(Listing(Colliding(occ)));
  }

  lemma QualifiedIsCandidate(st: Setting, occ: seq<Occurrence>, i: nat, n: string)
    requires IsRenamed(st, occ, Listing(Colliding(occ)), i, n)
    ensures Candidate(st, occ, Listing(Colliding(occ))[i], n)
  {
    hide Occupied, Clashes;
    ListedColliding(occ, i);
  }

  /** If no new name is a label decided later, labels that differed still differ. */
  lemma NoneMadeEqual(st: Setting, occ: seq<Occurrence>)
    requires NoneAhead(st, occ)
    ensures !exists i, n, j :: KeptTooLate(st, occ, i, n, j)
    ensures !exists x, y :: MadeEqual(st, occ, x, y)
  {
    var names := Listing(Colliding(occ));
    forall i: nat, n, j: nat ensures !KeptTooLate(st, occ, i, n, j) {
      if i < j < |names| && IsRenamed(st, occ, names, i, n) {
        QualifiedIsCandidate(st, occ, i, n);
        ListedColliding(occ, j);
        assert Before(names[i], names[j]);
      }
    }
    hide NoneAhead, KeptTooLate, MadeEqual;
    NewCollisionExactly(st, occ);
  }

  /** Where an occupied name comes from. */
  ghost predicate TakenBy(st: Setting, occ: seq<Occurrence>, names: seq<string>, c: string, j: nat)
  {
    && j < |names|
    && ((!OutcomeAt(st, occ, names, j).Qualified? && names[j] == c)
        || exists n :: IsRenamed(st, occ, names, j, n) && QualifiedLabel(st.table, n, names[j]) == c)
  }

  lemma {:induction false} OccupiedFrom(st: Setting, occ: seq<Occurrence>, names: seq<string>, i: nat, c: string)
    requires i <= |names| && c in Occupied(st, occ, names[..i])
    ensures c in HeldOnce(occ) || exists j: nat :: j < i && TakenBy(st, occ, names, c, j)
  {
    if i == 0 {
      assert names[..0] == [];
    } else {
      OccupiedNext(st, occ, names, i - 1);
      hide HeldOnce;
      if c in Occupied(st, occ, names[..i - 1]) {
        OccupiedFrom(st, occ, names, i - 1, c);
      } else {
        TakesFrom(st, occ, names, i - 1, c);
      }
    }
  }

  lemma TakesFrom(st: Setting, occ: seq<Occurrence>, names: seq<string>, i: nat, c: string)
    requires i < |names| && c in Takes(OutcomeAt(st, occ, names, i), names[i])
    ensures TakenBy(st, occ, names, c, i)
  {
    hide Occupied, Clashes, QualifiedLabel;
    var outcome := OutcomeAt(st, occ, names, i);
    if outcome.Qualified? {
      var n :| n in outcome.renamedTo && outcome.renamedTo[n] == c;
      assert IsRenamed(st, occ, names, i, n);
    }
  }

  /** Every group but the join keys is qualified exactly when the new names differ
      from each other, from every label held once and from every join key decided earlier. */
  lemma QualifiedExactly(st: Setting, occ: seq<Occurrence>)
    requires st.policy.Qualify?
    ensures AllQualified(st, occ, Listing(Colliding(occ))) <==> Spread(st, occ)
  {
    var names := Listing(Colliding(occ));
    if AllQualified(st, occ, names) {
      QualifiedSpread(st, occ);
    }
    if Spread(st, occ) {
      SpreadQualified(st, occ, |names|);
    }
  }

  /** With every group qualified, a candidate is a new name. */
  lemma CandidateRenamed(st: Setting, occ: seq<Occurrence>, l: string, n: string) returns (i: nat)
    requires AllQualified(st, occ, Listing(Colliding(occ))) && Candidate(st, occ, l, n)
    ensures IsRenamed(st, occ, Listing(Colliding(occ)), i, n) && Listing(Colliding(occ))[i] == l
  {
    i := PlaceInListing(occ, l);
  }

  lemma QualifiedSpread(st: Setting, occ: seq<Occurrence>)
    requires AllQualified(st, occ, Listing(Colliding(occ)))
    ensures Spread(st, occ)
  {
    var names := Listing(Colliding(occ));
    hide QualifiedLabel, IsRenamed, OutcomeAt, HeldOnce, Colliding;
    forall l, n | Candidate(st, occ, l, n)
      ensures QualifiedLabel(st.table, n, l) !in HeldOnce(occ)
      ensures forall m, o :: Candidate(st, occ, m, o) && (l, n) != (m, o) ==>
        QualifiedLabel(st.table, n, l) != QualifiedLabel(st.table, o, m)
      ensures forall m :: m in Colliding(occ) && m in st.joinKeys && Before(m, l) ==> QualifiedLabel(st.table, n, l) != m
    {
      CandidateSpread(st, occ, l, n);
    }
  }

  lemma CandidateSpread(st: Setting, occ: seq<Occurrence>, l: string, n: string)
    requires AllQualified(st, occ, Listing(Colliding(occ))) && Candidate(st, occ, l, n)
    ensures QualifiedLabel(st.table, n, l) !in HeldOnce(occ)
    ensures forall m, o :: Candidate(st, occ, m, o) && (l, n) != (m, o) ==>
      QualifiedLabel(st.table, n, l) != QualifiedLabel(st.table, o, m)
    ensures forall m :: m in Colliding(occ) && m in st.joinKeys && Before(m, l) ==> QualifiedLabel(st.table, n, l) != m
  {
    var names := Listing(Colliding(occ));
    var i := CandidateRenamed(st, occ, l, n);
    NewNamesSafe(st, occ, names, i, n);
    hide QualifiedLabel, HeldOnce;
    forall m, o | Candidate(st, occ, m, o) && (l, n) != (m, o)
      ensures QualifiedLabel(st.table, n, l) != QualifiedLabel(st.table, o, m)
    {
      var j := CandidateRenamed(st, occ, m, o);
      assert (j, o) != (i, n);
    }
    forall m | m in Colliding(occ) && m in st.joinKeys && Before(m, l) ensures QualifiedLabel(st.table, n, l) != m {
      var j := PlaceInListing(occ, m);
      EarlierInListing(names, j, i);
      JoinKeyKept(st, occ, names, j);
    }
  }

  lemma EarlierInListing(names: seq<string>, j: nat, i: nat)
    requires Ascending(names) && i < |names| && j < |names| && Before(names[j], names[i])
    ensures j < i
  {
    BeforeIrreflexive(names[i]);
    if i < j {
      BeforeTransitive(names[j], names[i], names[j]);
      BeforeIrreflexive(names[j]);
    }
  }

  lemma JoinKeyKept(st: Setting, occ: seq<Occurrence>, names: seq<string>, j: nat)
    requires j < |names| && names[j] in st.joinKeys
    ensures !OutcomeAt(st, occ, names, j).Qualified?
  {
  }

  lemma {:induction false} SpreadQualified(st: Setting, occ: seq<Occurrence>, i: nat)
    requires st.policy.Qualify? && Spread(st, occ) && i <= |Listing(Colliding(occ))|
    ensures forall j :: 0 <= j < i && Listing(Colliding(occ))[j] !in st.joinKeys ==>
      OutcomeAt(st, occ, Listing(Colliding(occ)), j).Qualified?
  {
    if i > 0 {
      SpreadQualified(st, occ, i - 1);
      if Listing(Colliding(occ))[i - 1] !in st.joinKeys {
        SpreadQualifiedAt(st, occ, i - 1);
      }
    }
  }

  lemma SpreadQualifiedAt(st: Setting, occ: seq<Occurrence>, i: nat)
    requires st.policy.Qualify? && Spread(st, occ) && i < |Listing(Colliding(occ))| && Listing(Colliding(occ))[i] !in st.joinKeys
    requires forall j :: 0 <= j < i && Listing(Colliding(occ))[j] !in st.joinKeys ==>
      OutcomeAt(st, occ, Listing(Colliding(occ)), j).Qualified?
    ensures OutcomeAt(st, occ, Listing(Colliding(occ)), i).Qualified?
  {
    var names := Listing(Colliding(occ));
    var l := names[i];
    ListedColliding(occ, i);
    var owners, occupied := Owners(occ, l), Occupied(st, occ, names[..i]);
    forall n | n in owners ensures !IsClash(st.table, owners, occupied, l, n) {
      assert Candidate(st, occ, l, n);
      SpreadUnoccupied(st, occ, i, n);
      forall m | m in owners && m != n ensures QualifiedLabel(st.table, m, l) != QualifiedLabel(st.table, n, l) {
        assert Candidate(st, occ, l, m);
      }
    }
    hide IsClash, Spread, QualifiedLabel, Occupied, Owners;
    NoClashes(st.table, owners, occupied, l);
  }

  lemma NoClashes(table: CharTable, owners: set<string>, occupied: set<string>, name: string)
    requires forall n :: n in owners ==> !IsClash(table, owners, occupied, name, n)
    ensures Clashes(table, owners, occupied, name) == {}
  {
  }

  lemma SpreadUnoccupied(st: Setting, occ: seq<Occurrence>, i: nat, n: string)
    requires Spread(st, occ) && i < |Listing(Colliding(occ))| && Candidate(st, occ, Listing(Colliding(occ))[i], n)
    requires forall j :: 0 <= j < i && Listing(Colliding(occ))[j] !in st.joinKeys ==>
      OutcomeAt(st, occ, Listing(Colliding(occ)), j).Qualified?
    ensures QualifiedLabel(st.table, n, Listing(Colliding(occ))[i]) !in Occupied(st, occ, Listing(Colliding(occ))[..i])
  {
    hide QualifiedLabel, OutcomeAt, Occupied, HeldOnce, Colliding, Owners;
    var names := Listing(Colliding(occ));
    var c := QualifiedLabel(st.table, n, names[i]);
    if c in Occupied(st, occ, names[..i]) {
      OccupiedFrom(st, occ, names, i, c);
      var j: nat :| j < i && TakenBy(st, occ, names, c, j);
      SpreadNotTaken(st, occ, i, n, j);
    }
  }

  lemma SpreadNotTaken(st: Setting, occ: seq<Occurrence>, i: nat, n: string, j: nat)
    requires Spread(st, occ) && j < i < |Listing(Colliding(occ))| && Candidate(st, occ, Listing(Colliding(occ))[i], n)
    requires Listing(Colliding(occ))[j] !in st.joinKeys ==> OutcomeAt(st, occ, Listing(Colliding(occ)), j).Qualified?
    ensures !TakenBy(st, occ, Listing(Colliding(occ)), QualifiedLabel(st.table, n, Listing(Colliding(occ))[i]), j)
  {
    hide QualifiedLabel, Occupied, HeldOnce, Colliding, Owners, OutcomeAt;
    var names := Listing(Colliding(occ));
    ListedColliding(occ, j);
    assert Before(names[j], names[i]);
    AscendingNoDuplicates(names);
    forall o | IsRenamed(st, occ, names, j, o) ensures QualifiedLabel(st.table, o, names[j]) != QualifiedLabel(st.table, n, names[i]) {
      QualifiedIsCandidate(st, occ, j, o);
      assert (names[j], o) != (names[i], n);
    }
  }

  /** The labels of the resolved document, place by place. */
  lemma ResolvedLabels(st: Setting, entities: seq<Entity>)
    ensures var occ, after := Occurrences(entities), Occurrences(RenamedEntities(AllRenames(st, Occurrences(entities)), entities));
      |after| == |occ| && forall k :: 0 <= k < |occ| ==> after[k] == Occurrence(occ[k].entity, After(st, occ, k))
  {
    hide RenamedEntities, AllRenames, NewName;
    RenamedOccurrences(AllRenames(st, Occurrences(entities)), entities);
  }

  /** If no new name is a label decided later, labels of the document that differ
      still differ when it is resolved. */
  lemma DocumentKeepsApart(st: Setting, entities: seq<Entity>, x: nat, y: nat)
    requires NoneAhead(st, Occurrences(entities)) && x < |Occurrences(entities)| && y < |Occurrences(entities)|
    requires Occurrences(entities)[x].name != Occurrences(entities)[y].name
    ensures var after := Occurrences(RenamedEntities(AllRenames(st, Occurrences(entities)), entities));
      x < |after| && y < |after| && after[x].name != after[y].name
  {
    hide AllRenames, RenamedEntities, After, NoneAhead, KeptTooLate;
    ResolvedLabels(st, entities);
    NoneMadeEqual(st, Occurrences(entities));
    assert !MadeEqual(st, Occurrences(entities), x, y);
  }

  /** The new names differ, and none is a label of the document. */
  ghost predicate NewToDocument(st: Setting, occ: seq<Occurrence>)
  {
    CandidatesDiffer(st, occ) && forall l, n :: Candidate(st, occ, l, n) ==> QualifiedLabel(st.table, n, l) !in LabelsCarried(occ)
  }

  lemma NewIsSpread(st: Setting, occ: seq<Occurrence>)
    requires NewToDocument(st, occ)
    ensures Spread(st, occ) && NoneAhead(st, occ)
  {
    hide QualifiedLabel, CandidatesDiffer;
  }

  /** If the new names differ and none is a label of the document, then in the resolved
      document two properties share a label exactly when they shared a join key. */
  lemma OnlyJoinKeysShared(st: Setting, entities: seq<Entity>, x: nat, y: nat)
    requires st.policy.Qualify? && NoDuplicates(Occurrences(entities)) && NewToDocument(st, Occurrences(entities))
    requires x < y < |Occurrences(entities)|
    ensures var occ, after := Occurrences(entities), Occurrences(RenamedEntities(AllRenames(st, Occurrences(entities)), entities));
      && |after| == |occ|
      && (after[x].name == after[y].name <==> occ[x].name == occ[y].name && occ[x].name in st.joinKeys)
  {
    hide AllRenames, RenamedEntities, After, Spread, NoneAhead, NewToDocument, KeptTooLate;
    var occ := Occurrences(entities);
    ResolvedLabels(st, entities);
    NewIsSpread(st, occ);
    if occ[x].name == occ[y].name {
      SharedAfter(st, occ, x, y);
      QualifiedExactly(st, occ);
      SharedFate(st, occ, x, y);
    } else {
      NoneMadeEqual(st, occ);
      assert !MadeEqual(st, occ, x, y);
    }
  }

  lemma SharedFate(st: Setting, occ: seq<Occurrence>, x: nat, y: nat)
    requires AllQualified(st, occ, Listing(Colliding(occ)))
    requires x < y < |occ| && occ[x].name == occ[y].name
    ensures FateOf(st, occ, occ[x].name).Kept? <==> occ[x].name in st.joinKeys
  {
    CollidingTwice(occ, occ[x].name);
    OwnerListMembers(occ, occ[x].name);
    assert occ[x].name in Colliding(occ);
    var i := PlaceInListing(occ, occ[x].name);
    hide Occupied, Clashes, Colliding;
  }

  /** If no new name is a label decided later, the physical side follows. */
  lemma PhysicalSideFollows(st: Setting, entities: seq<Entity>, physical: map<string, Specs>, i: nat)
    requires forall i, j :: 0 <= i < j < |entities| ==> entities[i].name != entities[j].name
    requires NoDuplicates(Occurrences(entities)) && NoneAhead(st, Occurrences(entities))
    requires i < |entities| && entities[i].name in physical && Mirrors(entities[i], physical[entities[i].name])
    ensures var renames, name := AllRenames(st, Occurrences(entities)), entities[i].name;
      var after := RekeyedAll(renames, entities, physical);
      && name in after && Mirrors(RenamedEntity(renames, entities[i]), after[name])
      && forall k :: 0 <= k < |physical[name]| ==> after[name][k].1 == physical[name][k].1
  {
    hide KeptTooLate, NoneAhead, MadeEqual, RekeyedAll, AllRenames;
    NoneMadeEqual(st, Occurrences(entities));
    DocumentFollows(st, entities, physical, i);
  }

  // ----- a group kept too late

  const CLASHING := [Occurrence("Z", "x"), Occurrence("Z", "zX"), Occurrence("V", "zX"), Occurrence("W", "x"), Occurrence("U", "zZX")]

  lemma ClashingOwners(l: string)
    ensures OwnerList(CLASHING, l)
         == if l == "x" then ["Z", "W"] else if l == "zX" then ["Z", "V"] else if l == "zZX" then ["U"] else []
  {
    var one, two, three, four := CLASHING[..1], CLASHING[..2], CLASHING[..3], CLASHING[..4];
    assert one[..0] == [] && two[..1] == one && three[..2] == two && four[..3] == three;
    assert OwnerList(one, l) == if l == "x" then ["Z"] else [];
    assert OwnerList(two, l) == if l == "x" || l == "zX" then ["Z"] else [];
    assert OwnerList(four, l) == if l == "x" then ["Z", "W"] else if l == "zX" then ["Z", "V"] else [];
  }

  lemma ClashingLabels()
    ensures Listing(Colliding(CLASHING)) == ["x", "zX"]
    ensures "zZX" in HeldOnce(CLASHING) && HeldOnce(CLASHING) <= {"zZX"}
  {
    forall l ensures OwnerList(CLASHING, l) == [] <==> l !in LabelsCarried(CLASHING) {
      OwnerListMembers(CLASHING, l);
    }
    forall l ensures l in Colliding(CLASHING) <==> l == "x" || l == "zX" {
      ClashingOwners(l);
    }
    forall l ensures l in HeldOnce(CLASHING) <==> l == "zZX" {
      ClashingOwners(l);
    }
    assert Before("x", "zX");
    IsTheListing(["x", "zX"], Colliding(CLASHING));
  }

  /** `Z` and `W` share `x`, `Z` and `V` share `zX`, and `U` holds `zZX`. The
      first group is qualified, giving `Z` a second `zX`; the second is refused. */
  lemma KeptTooLateExample(st: Setting)
    requires st.policy.Qualify? && st.joinKeys == {}
    requires st.table.lower('Z') == "z" && st.table.lower('W') == "w"
    requires st.table.upper('x') == "X" && st.table.upper('z') == "Z"
    ensures KeptTooLate(st, CLASHING, 0, "Z", 1)
    ensures NoDuplicates(CLASHING) && MadeEqual(st, CLASHING, 0, 1)
  {
    hide OwnerList, QualifiedLabel, Decide, Occupied, IsRenamed, Colliding, HeldOnce;
    ClashingLabels();
    FirstQualified(st);
    SecondRefused(st);
    KeptTooLateAt(st, CLASHING, 0, "Z", 1, 0, 1);
  }

  lemma FirstQualified(st: Setting)
    requires st.policy.Qualify? && st.joinKeys == {}
    requires st.table.lower('Z') == "z" && st.table.lower('W') == "w" && st.table.upper('x') == "X"
    ensures IsRenamed(st, CLASHING, ["x", "zX"], 0, "Z") && QualifiedLabel(st.table, "Z", "x") == "zX"
  {
    ClashingLabels();
    ClashingOwners("x");
    assert ["x", "zX"][..0] == [];
    assert QualifiedLabel(st.table, "W", "x") == "wX";
    assert Owners(CLASHING, "x") == {"Z", "W"};
    assert "zX"[0] != "wX"[0] && |"zZX"| == 3;
    forall n | n in {"Z", "W"} ensures !IsClash(st.table, {"Z", "W"}, HeldOnce(CLASHING), "x", n) {
      assert |QualifiedLabel(st.table, n, "x")| == 2;
    }
  }

  lemma SecondRefused(st: Setting)
    requires st.policy.Qualify? && st.joinKeys == {}
    requires st.table.lower('Z') == "z" && st.table.upper('z') == "Z"
    ensures !OutcomeAt(st, CLASHING, ["x", "zX"], 1).Qualified?
  {
    var names := ["x", "zX"];
    ClashingLabels();
    ClashingOwners("zX");
    assert QualifiedLabel(st.table, "Z", "zX") == "zZX";
    assert "Z" in OwnerList(CLASHING, "zX");
    OccupiedKeeps(st, CLASHING, names, 1, 1);
    ClashListed(st.table, Owners(CLASHING, "zX"), Occupied(st, CLASHING, names[..1]), "zX", "Z");
  }

  // ----- resolving in place

  ghost function RecordsFor(st: Setting, occ: seq<Occurrence>, names: seq<string>): seq<Record>
  {
    seq(|names|, i requires 0 <= i < |names| => Record(names[i], Owners(occ, names[i]), OutcomeAt(st, occ, names, i)))
  }

  /** The owners by label, as the first loop collects them. */
  ghost predicate Tabulates(owners: map<string, seq<string>>, occ: seq<Occurrence>)
  {
    forall l :: OwnerList(occ, l) == if l in owners then owners[l] else []
  }

  lemma TabulateNext(owners: map<string, seq<string>>, occ: seq<Occurrence>, o: Occurrence)
    requires Tabulates(owners, occ)
    ensures Tabulates(owners[o.name := (if o.name in owners then owners[o.name] else []) + [o.entity]], occ + [o])
  {
    assert (occ + [o])[..|occ|] == occ;
  }

  method TabulateOwners(entities: seq<Entity>) returns (owners: map<string, seq<string>>)
    ensures Tabulates(owners, Occurrences(entities))
  {
    owners := map[];
    for i := 0 to |entities|
      invariant Tabulates(owners, Occurrences(entities[..i]))
    {
      owners := TabulateEntity(entities[i], owners, Occurrences(entities[..i]));
      assert entities[..i + 1][..i] == entities[..i];
    }
    assert entities[..|entities|] == entities;
  }

  method TabulateEntity(e: Entity, before: map<string, seq<string>>, ghost done: seq<Occurrence>)
    returns (owners: map<string, seq<string>>)
    requires Tabulates(before, done)
    ensures Tabulates(owners, done + OccurrencesIn(e))
  {
    hide Tabulates;
    owners := before;
    ghost var here := OccurrencesIn(e);
    assert done + here[..0] == done;
    for j := 0 to |e.properties|
      invariant Tabulates(owners, done + here[..j])
    {
      var name := e.properties[j].name;
      TabulateNext(owners, done + here[..j], here[j]);
      assert done + here[..j] + [here[j]] == done + here[..j + 1];
      owners := owners[name := (if name in owners then owners[name] else []) + [e.name]];
    }
    assert here[..|e.properties|] == here;
  }

  method RekeyProperties(renames: map<Occurrence, string>, entity: string, specs: Specs) returns (r: Specs)
    ensures r == Rekeyed(renames, entity, specs)
  {
    r := [];
    for i := 0 to |specs|
      invariant r == Rekeyed(renames, entity, specs[..i])
    {
      assert specs[..i + 1][..i] == specs[..i];
      r := Put(r, NewName(renames, Occurrence(entity, specs[i].0)), specs[i].1);
    }
    assert specs[..|specs|] == specs;
  }

  /** What the loop over the colliding labels has worked out. */
  ghost predicate Resolving(st: Setting, occ: seq<Occurrence>, names: seq<string>,
                            occupied: set<string>, renames: map<Occurrence, string>, records: seq<Record>)
  {
    && occupied == Occupied(st, occ, names)
    && renames == Renames(st, occ, names)
    && records == RecordsFor(st, occ, names)
  }

  lemma ResolvingNext(st: Setting, occ: seq<Occurrence>, names: seq<string>, i: nat,
                      occupied: set<string>, renames: map<Occurrence, string>, records: seq<Record>)
    requires i < |names| && Resolving(st, occ, names[..i], occupied, renames, records)
    ensures var name := names[i];
      var outcome := Decide(st, Owners(occ, name), occupied, name);
      Resolving(st, occ, names[..i + 1], occupied + Takes(outcome, name), WithRenames(renames, outcome, name),
                records + [Record(name, Owners(occ, name), outcome)])
  {
    OccupiedNext(st, occ, names, i);
    var more := names[..i + 1];
    assert more[..i] == names[..i];
    forall j | 0 <= j < i ensures more[..j] == names[..i][..j] {
    }
  }

  lemma ListedOwners(owners: map<string, seq<string>>, occ: seq<Occurrence>, names: seq<string>, i: nat)
    requires Tabulates(owners, occ) && i < |names| && Elements(names) == Colliding(occ)
    ensures names[i] in owners && Elements(owners[names[i]]) == Owners(occ, names[i])
  {
    assert names[i] in Elements(names);
  }

  /** The document after its collisions were resolved, and what was recorded. */
  ghost predicate Resolved(st: Setting, before: seq<Entity>, physicalBefore: map<string, Specs>,
                           entities: seq<Entity>, physical: map<string, Specs>, records: seq<Record>)
  {
    var occ := Occurrences(before);
    && records == RecordsFor(st, occ, Listing(Colliding(occ)))
    && entities == RenamedEntities(AllRenames(st, occ), before)
    && physical == RekeyedAll(AllRenames(st, occ), before, physicalBefore)
  }

  /** The loop over the colliding labels. */
  method ResolveLabels(st: Setting, owners: map<string, seq<string>>, ghost occ: seq<Occurrence>)
    returns (renames: map<Occurrence, string>, records: seq<Record>)
    requires Tabulates(owners, occ)
    ensures renames == AllRenames(st, occ) && records == RecordsFor(st, occ, Listing(Colliding(occ)))
  {
    CarriedExactly(owners, occ);
    var occupied := set l | l in owners && |owners[l]| == 1;
    var names := Sorted(set l | l in owners && |owners[l]| > 1);
    renames, records := map[], [];
    for i := 0 to |names|
      invariant Resolving(st, occ, names[..i], occupied, renames, records)
    {
      ListedOwners(owners, occ, names, i);
      var name, who := names[i], Elements(owners[names[i]]);
      var outcome := Decide(st, who, occupied, name);
      ResolvingNext(st, occ, names, i, occupied, renames, records);
      occupied := occupied + Takes(outcome, name);
      renames := WithRenames(renames, outcome, name);
      records := records + [Record(name, who, outcome)];
    }
    assert names[..|names|] == names;
  }

  class Document {
    var entities: seq<Entity>
    var physical: map<string, Specs>

    constructor (entities: seq<Entity>, physical: map<string, Specs>)
      ensures this.entities == entities && this.physical == physical
    {
      this.entities, this.physical := entities, physical;
    }

    /** `_resolve_label_collisions` */
    method ResolveLabelCollisions(st: Setting) returns (records: seq<Record>)
      modifies this
      ensures st.policy.Off? ==> records == [] && entities == old(entities) && physical == old(physical)
      ensures !st.policy.Off? ==> Resolved(st, old(entities), old(physical), entities, physical, records)
    {
      if st.policy.Off? {
        return [];
      }
      var owners := TabulateOwners(entities);
      var renames;
      renames, records := ResolveLabels(st, owners, Occurrences(entities));
      Apply(renames);
    }

    /** Renames the properties of every entity with a rename, on both sides. */
    method Apply(renames: map<Occurrence, string>)
      modifies this
      ensures entities == RenamedEntities(renames, old(entities))
      ensures physical == RekeyedAll(renames, old(entities), old(physical))
    {
      var before := entities;
      assert before[0..] == before;
      for i := 0 to |before|
        invariant Applied(renames, before, old(physical), i, entities, physical)
      {
        var e := before[i];
        AppliedNext(renames, before, old(physical), i, entities, physical);
        if HasRenames(renames, e.name) {
          entities := entities[i := RenamedEntity(renames, e)];
          if e.name in physical {
            var specs := RekeyProperties(renames, e.name, physical[e.name]);
            physical := physical[e.name := specs];
          }
        }
      }
      assert before[..|before|] == before;
    }
  }

  /** The first `i` entities have been gone through. */
  ghost predicate Applied(renames: map<Occurrence, string>, before: seq<Entity>, physicalBefore: map<string, Specs>,
                          i: nat, entities: seq<Entity>, physical: map<string, Specs>)
    requires i <= |before|
  {
    && entities == RenamedEntities(renames, before[..i]) + before[i..]
    && physical == RekeyedAll(renames, before[..i], physicalBefore)
  }

  lemma AppliedNext(renames: map<Occurrence, string>, before: seq<Entity>, physicalBefore: map<string, Specs>,
                    i: nat, entities: seq<Entity>, physical: map<string, Specs>)
    requires i < |before| && Applied(renames, before, physicalBefore, i, entities, physical)
    ensures |entities| == |before|
    ensures var next := if HasRenames(renames, before[i].name) then entities[i := RenamedEntity(renames, before[i])] else entities;
      Applied(renames, before, physicalBefore, i + 1, next, RekeyOne(renames, before[i].name, physical))
  {
    var e := before[i];
    assert before[..i + 1][..i] == before[..i];
    if !HasRenames(renames, e.name) {
      NothingRenamed(renames, e);
    }
    assert RenamedEntities(renames, before[..i + 1]) == RenamedEntities(renames, before[..i]) + [RenamedEntity(renames, e)];
    assert before[i..] == [e] + before[i + 1..];
  }

  lemma NothingRenamed(renames: map<Occurrence, string>, e: Entity)
    requires !HasRenames(renames, e.name)
    ensures RenamedEntity(renames, e) == e
  {
    assert RenamedEntity(renames, e).properties == e.properties;
  }

  lemma CarriedExactly(owners: map<string, seq<string>>, occ: seq<Occurrence>)
    requires Tabulates(owners, occ)
    ensures (set l | l in owners && |owners[l]| > 1) == Colliding(occ)
    ensures (set l | l in owners && |owners[l]| == 1) == HeldOnce(occ)
  {
    forall l ensures OwnerList(occ, l) == [] <==> l !in LabelsCarried(occ) {
      OwnerListMembers(occ, l);
    }
  }
}
