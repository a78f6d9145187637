/**
 Applying change events to a document store under a conflict policy
 (src/r2g/cdc/conflict.py). Policy `last_write_wins` is not part of this model.
 */
module CdcConflicts {
  import opened Characters

  datatype Policy = SourceWins | LogAndSkip | Fail

  datatype ConflictType = InsertDuplicate | ReplaceMissing

  /** A document's place: its collection and its `_key`. */
  datatype Ref = Ref(collection: string, key: string)

  datatype Conflict = Conflict(kind: ConflictType, ref: Ref, policy: Policy, resolution: Option<string>)

  datatype Delta =
    | Insert(ref: Ref, document: string)
    | Replace(ref: Ref, document: string)
    | Delete(ref: Ref)

  type Store = map<Ref, string>

  /** What applying one delta comes to; `raised` means the conflict was raised again. */
  datatype Effect = Effect(store: Store, applied: bool, conflict: Option<Conflict>, raised: bool)

  function At(store: Store, ref: Ref): Option<string>
  {
    if ref in store then Some(store[ref]) else None
  }

  /** The conflict a delta meets in a store, if any. */
  function Meets(store: Store, delta: Delta): Option<ConflictType>
  {
    if delta.Insert? && delta.ref in store then Some(InsertDuplicate)
    else if delta.Replace? && delta.ref !in store then Some(ReplaceMissing)
    else None
  }

  /** The store once the delta is written, whatever was there. */
  function Written(store: Store, delta: Delta): Store
  {
    if delta.Delete? then store - {delta.ref} else store[delta.ref := delta.document]
  }

  function Resolution(policy: Policy, kind: ConflictType): Option<string>
  {
    match (policy, kind)
    case (SourceWins, InsertDuplicate) => Some("upsert (replaced existing)")
    case (SourceWins, ReplaceMissing) => Some("inserted (was missing)")
    case (LogAndSkip, InsertDuplicate) => Some("skipped")
    case (LogAndSkip, ReplaceMissing) => Some("skipped (target missing)")
    case (Fail, _) => None
  }

  function Apply(policy: Policy, store: Store, delta: Delta): Effect
  {
    match Meets(store, delta)
    case None => Effect(Written(store, delta), true, None, false)
    case Some(kind) =>
      var conflict := Conflict(kind, delta.ref, policy, Resolution(policy, kind));
      if policy.SourceWins? then Effect(Written(store, delta), true, Some(conflict), false)
      else Effect(store, false, Some(conflict), policy.Fail?)
  }

  /** A run over a log, stopping where a conflict is raised. */
  datatype Run = Run(store: Store, conflicts: seq<Conflict>, raised: bool)

  function ApplyAll(policy: Policy, store: Store, log: seq<Delta>): Run
  {
    if log == [] then Run(store, [], false)
    else
      var before := ApplyAll(policy, store, log[..|log| - 1]);
      if before.raised then before
      else
        var effect := Apply(policy, before.store, log[|log| - 1]);
        Run(effect.store, before.conflicts + (if effect.conflict.Some? then [effect.conflict.value] else []), effect.raised)
  }

  // ----- what a log decides

  /** What a delta says about its document. */
  function Says(delta: Delta): Option<string>
  {
    if delta.Delete? then None else Some(delta.document)
  }

  /** `i` is where the log says last what is at `ref`; -1 if it does not. */
  ghost predicate DecidedAt(log: seq<Delta>, ref: Ref, i: int)
  {
    && -1 <= i < |log|
    && (i >= 0 ==> log[i].ref == ref)
    && (forall j :: i < j < |log| ==> log[j].ref != ref)
  }

  /** Under source_wins each document is decided by the last delta about it. */
  lemma {:induction false} LastDeltaDecides(store: Store, log: seq<Delta>, ref: Ref, i: int)
    requires DecidedAt(log, ref, i)
    ensures !ApplyAll(SourceWins, store, log).raised
    ensures At(ApplyAll(SourceWins, store, log).store, ref) == if i < 0 then At(store, ref) else Says(log[i])
  {
    if log != [] {
      var n := |log| - 1;
      if i < n {
        LastDeltaDecides(store, log[..n], ref, i);
      } else {
        NeverRaised(store, log[..n]);
      }
    }
  }

  lemma {:induction false} NeverRaised(store: Store, log: seq<Delta>)
    ensures !ApplyAll(SourceWins, store, log).raised
  {
    if log != [] {
      NeverRaised(store, log[..|log| - 1]);
    }
  }

  lemma {:induction false} Decided(log: seq<Delta>, ref: Ref) returns (i: int)
    ensures DecidedAt(log, ref, i)
  {
    if log == [] {
      i := -1;
    } else if log[|log| - 1].ref == ref {
      i := |log| - 1;
    } else {
      i := Decided(log[..|log| - 1], ref);
      forall j | i < j < |log| ensures log[j].ref != ref {
        if j < |log| - 1 {
          assert log[..|log| - 1][j] == log[j];
        }
      }
    }
  }

  // ----- redelivery

  /** One reader of the log: before each delta it may have gone back. `positions`
      are the places it reads, ending with `end` next. */
  ghost predicate Redelivers(n: nat, positions: seq<nat>, end: nat)
  {
    if positions == [] then end == 0
    else
      var k := |positions| - 1;
      positions[k] < n && end == positions[k] + 1 &&
      exists at: nat :: positions[k] <= at && Redelivers(n, positions[..k], at)
  }

  function Delivered(log: seq<Delta>, positions: seq<nat>): seq<Delta>
    requires forall k :: 0 <= k < |positions| ==> positions[k] < |log|
  {
    seq(|positions|, k requires 0 <= k < |positions| => log[positions[k]])
  }

  /** Every document is as some delta about it says, and between that one and the
      reader's position no other is about it. */
  ghost predicate Explained(start: Store, log: seq<Delta>, end: nat, store: Store)
  {
    forall ref :: IsExplained(start, log, end, store, ref)
  }

  ghost predicate IsExplained(start: Store, log: seq<Delta>, end: nat, store: Store, ref: Ref)
  {
    exists i :: Explains(start, log, end, store, ref, i)
  }

  ghost predicate Explains(start: Store, log: seq<Delta>, end: nat, store: Store, ref: Ref, i: int)
  {
    && -1 <= i < |log|
    && (i >= 0 ==> log[i].ref == ref)
    && At(store, ref) == (if i < 0 then At(start, ref) else Says(log[i]))
    && (forall j :: i < j < end && j < |log| ==> log[j].ref != ref)
  }

  lemma ExplainedNext(start: Store, log: seq<Delta>, at: nat, store: Store, p: nat)
    requires Explained(start, log, at, store) && p <= at && p < |log|
    ensures Explained(start, log, p + 1, Written(store, log[p]))
  {
    var after, end := Written(store, log[p]), p + 1;
    forall ref ensures IsExplained(start, log, end, after, ref) {
      if log[p].ref == ref {
        assert Explains(start, log, end, after, ref, p);
      } else {
        assert IsExplained(start, log, at, store, ref);
        var i :| Explains(start, log, at, store, ref, i);
        assert Explains(start, log, end, after, ref, i);
      }
    }
  }

  lemma {:induction false} RedeliveryExplained(start: Store, log: seq<Delta>, positions: seq<nat>, end: nat)
    requires Redelivers(|log|, positions, end)
    ensures forall k :: 0 <= k < |positions| ==> positions[k] < |log|
    ensures Explained(start, log, end, ApplyAll(SourceWins, start, Delivered(log, positions)).store)
    ensures !ApplyAll(SourceWins, start, Delivered(log, positions)).raised
  {
    if positions == [] {
      forall ref ensures IsExplained(start, log, end, start, ref) {
        assert Explains(start, log, end, start, ref, -1);
      }
    } else {
      var k := |positions| - 1;
      var before := positions[..k];
      var at: nat :| positions[k] <= at && Redelivers(|log|, before, at);
      RedeliveryExplained(start, log, before, at);
      var stream := Delivered(log, positions);
      assert stream[..k] == Delivered(log, before);
      var store := ApplyAll(SourceWins, start, stream[..k]).store;
      ExplainedNext(start, log, at, store, positions[k]);
      AppliedLast(start, stream);
    }
  }

  lemma AppliedLast(start: Store, log: seq<Delta>)
    requires log != []
    ensures var before := ApplyAll(SourceWins, start, log[..|log| - 1]);
      !before.raised && ApplyAll(SourceWins, start, log).store == Written(before.store, log[|log| - 1])
      && !ApplyAll(SourceWins, start, log).raised
  {
    NeverRaised(start, log[..|log| - 1]);
  }

  /** At-least-once delivery: however often the reader goes back, once it has
      reached the end of the log the store is as after one clean pass. */
  lemma RedeliveryConverges(start: Store, log: seq<Delta>, positions: seq<nat>)
    requires Redelivers(|log|, positions, |log|)
    ensures forall k :: 0 <= k < |positions| ==> positions[k] < |log|
    ensures ApplyAll(SourceWins, start, Delivered(log, positions)).store == ApplyAll(SourceWins, start, log).store
  {
    RedeliveryExplained(start, log, positions, |log|);
    var store := ApplyAll(SourceWins, start, Delivered(log, positions)).store;
    forall ref ensures At(store, ref) == At(ApplyAll(SourceWins, start, log).store, ref) {
      assert IsExplained(start, log, |log|, store, ref);
      var i :| Explains(start, log, |log|, store, ref, i);
      LastDeltaDecides(start, log, ref, i);
    }
    SameStore(store, ApplyAll(SourceWins, start, log).store);
  }

  lemma SameStore(a: Store, b: Store)
    requires forall ref :: At(a, ref) == At(b, ref)
    ensures a == b
  {
    forall ref ensures (ref in a <==> ref in b) && (ref in a ==> a[ref] == b[ref]) {
      assert At(a, ref) == At(b, ref);
    }
  }

  /** Applying any suffix of the log again leaves the store as it is. */
  lemma ReplayedSuffix(start: Store, log: seq<Delta>, from: nat)
    requires from <= |log|
    ensures ApplyAll(SourceWins, ApplyAll(SourceWins, start, log).store, log[from..]).store == ApplyAll(SourceWins, start, log).store
  {
    var once := ApplyAll(SourceWins, start, log).store;
    var again := ApplyAll(SourceWins, once, log[from..]).store;
    forall ref ensures At(again, ref) == At(once, ref) {
      var i := Decided(log[from..], ref);
      LastDeltaDecides(once, log[from..], ref, i);
      if i >= 0 {
        forall j | from + i < j < |log| ensures log[j].ref != ref {
          assert log[from..][j - from] == log[j];
        }
        LastDeltaDecides(start, log, ref, from + i);
      }
    }
    SameStore(again, once);
  }

  // ----- replay when conflicts are skipped

  lemma {:induction false} SkippingNeverRaises(store: Store, log: seq<Delta>)
    ensures !ApplyAll(LogAndSkip, store, log).raised
  {
    if log != [] {
      SkippingNeverRaises(store, log[..|log| - 1]);
    }
  }

  /** The store after a log under log_and_skip. */
  function Skipped(store: Store, log: seq<Delta>): Store
  {
    ApplyAll(LogAndSkip, store, log).store
  }

  lemma SkippedNext(store: Store, log: seq<Delta>, delta: Delta)
    ensures Skipped(store, log + [delta]) == Apply(LogAndSkip, Skipped(store, log), delta).store
  {
    SkippingNeverRaises(store, log);
    assert (log + [delta])[..|log|] == log;
  }

  lemma SkippedNone(store: Store)
    ensures Skipped(store, []) == store
  {
  }

  lemma {:induction false} SkippedMore(store: Store, p: seq<Delta>, q: seq<Delta>)
    ensures Skipped(store, p + q) == Skipped(Skipped(store, p), q)
  {
    hide Skipped, Apply;
    if q == [] {
      assert p + q == p;
      SkippedNone(Skipped(store, p));
    } else {
      var n := |q| - 1;
      SkippedMore(store, p, q[..n]);
      SkippedNext(store, p + q[..n], q[n]);
      SkippedNext(Skipped(store, p), q[..n], q[n]);
      assert p + q == p + q[..n] + [q[n]] && q == q[..n] + [q[n]];
    }
  }

  /** What a log leaves of one document, from what was there. */
  function LeftBy(at: Option<string>, log: seq<Delta>, ref: Ref): Option<string>
  {
    if log == [] then at
    else
      var before, last := LeftBy(at, log[..|log| - 1], ref), log[|log| - 1];
      if last.ref != ref then before
      else match last
        case Insert(_, document) => if before.None? then Some(document) else before
        case Replace(_, document) => if before.Some? then Some(document) else before
        case Delete(_) => None
  }

  lemma {:induction false} SkippedLeaves(store: Store, log: seq<Delta>, ref: Ref)
    ensures At(Skipped(store, log), ref) == LeftBy(At(store, ref), log, ref)
  {
    if log != [] {
      var n := |log| - 1;
      SkippedLeaves(store, log[..n], ref);
      SkippedNext(store, log[..n], log[n]);
      assert log == log[..n] + [log[n]];
    }
  }

  lemma {:induction false} LeftByMore(at: Option<string>, p: seq<Delta>, q: seq<Delta>, ref: Ref)
    ensures LeftBy(at, p + q, ref) == LeftBy(LeftBy(at, p, ref), q, ref)
  {
    if q == [] {
      assert p + q == p;
    } else {
      LeftByMore(at, p, q[..|q| - 1], ref);
      assert (p + q)[..|p + q| - 1] == p + q[..|q| - 1];
    }
  }

  predicate Inserts(delta: Delta, ref: Ref) { delta.Insert? && delta.ref == ref }

  predicate Replaces(delta: Delta, ref: Ref) { delta.Replace? && delta.ref == ref }

  ghost predicate NeverDeleted(log: seq<Delta>, ref: Ref)
  {
    forall k :: 0 <= k < |log| ==> !(log[k].Delete? && log[k].ref == ref)
  }

  /** `i` is the first insert of the document. */
  ghost predicate FirstInsert(log: seq<Delta>, ref: Ref, i: nat)
  {
    i < |log| && Inserts(log[i], ref) && forall k :: 0 <= k < i ==> !Inserts(log[k], ref)
  }

  /** `r` is the last replace of the document, -1 if there is none. */
  ghost predicate LastReplace(log: seq<Delta>, ref: Ref, r: int)
  {
    && -1 <= r < |log| && (r >= 0 ==> Replaces(log[r], ref))
    && forall k :: r < k < |log| ==> !Replaces(log[k], ref)
  }

  /** A document that was absent, is never deleted, and whose last replace comes
      before its first insert with another content. */
  ghost predicate SkippedReplace(store: Store, log: seq<Delta>, ref: Ref)
  {
    && ref !in store && NeverDeleted(log, ref)
    && exists r: nat, i: nat ::
         LastReplace(log, ref, r) && FirstInsert(log, ref, i) && r < i && log[r].document != log[i].document
  }

  /** Present and never deleted: the last replace decides. */
  lemma {:induction false} PresentLeaves(v: string, log: seq<Delta>, ref: Ref, r: int)
    requires NeverDeleted(log, ref) && LastReplace(log, ref, r)
    ensures LeftBy(Some(v), log, ref) == Some(if r < 0 then v else log[r].document)
  {
    if log != [] {
      var n := |log| - 1;
      if r == n {
        var q := LastReplaceOf(log[..n], ref);
        PresentLeaves(v, log[..n], ref, q);
      } else {
        PresentLeaves(v, log[..n], ref, r);
      }
    }
  }

  lemma {:induction false} LastReplaceOf(log: seq<Delta>, ref: Ref) returns (r: int)
    ensures LastReplace(log, ref, r)
  {
    if log == [] {
      r := -1;
    } else if Replaces(log[|log| - 1], ref) {
      r := |log| - 1;
    } else {
      r := LastReplaceOf(log[..|log| - 1], ref);
      assert forall k :: 0 <= k < |log| - 1 ==> log[..|log| - 1][k] == log[k];
    }
  }

  /** Absent until the first insert: replaces are skipped, deletes change nothing. */
  lemma {:induction false} AbsentLeaves(log: seq<Delta>, ref: Ref)
    requires forall k :: 0 <= k < |log| ==> !Inserts(log[k], ref)
    ensures LeftBy(None, log, ref) == None
  {
    if log != [] {
      AbsentLeaves(log[..|log| - 1], ref);
    }
  }

  lemma {:induction false} FirstInsertOf(log: seq<Delta>, ref: Ref) returns (i: nat)
    requires exists k :: 0 <= k < |log| && Inserts(log[k], ref)
    ensures FirstInsert(log, ref, i)
  {
    i := 0;
    while !Inserts(log[i], ref)
      invariant i < |log| && forall k :: 0 <= k < i ==> !Inserts(log[k], ref)
      invariant exists k :: i <= k < |log| && Inserts(log[k], ref)
      decreases |log| - i
    {
      i := i + 1;
    }
  }

  /** Absent, never deleted, inserted at `i`: later replaces decide, else the insert. */
  lemma InsertedLeaves(log: seq<Delta>, ref: Ref, i: nat, r: int)
    requires NeverDeleted(log, ref) && FirstInsert(log, ref, i) && LastReplace(log, ref, r)
    ensures LeftBy(None, log, ref) == Some(if r > i then log[r].document else log[i].document)
  {
    var p, q := log[..i + 1], log[i + 1..];
    assert log == p + q;
    InsertLeaves(log, ref, i);
    forall k | 0 <= k < |q| ensures q[k] == log[i + 1 + k] {
    }
    hide LeftBy;
    LeftByMore(None, p, q, ref);
    PresentLeaves(log[i].document, q, ref, if r > i then r - i - 1 else -1);
  }

  lemma InsertLeaves(log: seq<Delta>, ref: Ref, i: nat)
    requires FirstInsert(log, ref, i)
    ensures LeftBy(None, log[..i + 1], ref) == Some(log[i].document)
  {
    assert log[..i + 1][..i] == log[..i];
    AbsentLeaves(log[..i], ref);
  }

  /** A deleted document is left as the deltas after its last delete leave it,
      whatever was there before. */
  lemma {:induction false} DeletedForgets(a: Option<string>, b: Option<string>, log: seq<Delta>, ref: Ref)
    requires !NeverDeleted(log, ref)
    ensures LeftBy(a, log, ref) == LeftBy(b, log, ref)
  {
    var n := |log| - 1;
    if !(log[n].Delete? && log[n].ref == ref) {
      var k :| 0 <= k < |log| && log[k].Delete? && log[k].ref == ref;
      assert log[..n][k] == log[k];
      DeletedForgets(a, b, log[..n], ref);
    }
  }

  /** Under log_and_skip applying the log again changes a document exactly when
      its last replace was skipped for want of the insert that follows it. */
  lemma ReplaySkippingAt(store: Store, log: seq<Delta>, ref: Ref)
    ensures var once := Skipped(store, log);
      At(Skipped(once, log), ref) != At(once, ref) <==> SkippedReplace(store, log, ref)
  {
    SkippedLeaves(store, log, ref);
    SkippedLeaves(Skipped(store, log), log, ref);
    ReplayLeaves(store, log, ref);
  }

  lemma ReplayLeaves(store: Store, log: seq<Delta>, ref: Ref)
    ensures var once := LeftBy(At(store, ref), log, ref);
      LeftBy(once, log, ref) != once <==> SkippedReplace(store, log, ref)
  {
    hide LeftBy;
    var once := LeftBy(At(store, ref), log, ref);
    var r := LastReplaceOf(log, ref);
    if !NeverDeleted(log, ref) {
      DeletedForgets(At(store, ref), once, log, ref);
    } else if ref in store {
      PresentLeaves(store[ref], log, ref, r);
      PresentLeaves(once.value, log, ref, r);
    } else if exists k :: 0 <= k < |log| && Inserts(log[k], ref) {
      InsertedReplay(store, log, ref);
    } else {
      AbsentLeaves(log, ref);
    }
  }

  lemma InsertedReplay(store: Store, log: seq<Delta>, ref: Ref)
    requires ref !in store && NeverDeleted(log, ref) && exists k :: 0 <= k < |log| && Inserts(log[k], ref)
    ensures var once := LeftBy(None, log, ref);
      LeftBy(once, log, ref) != once <==> SkippedReplace(store, log, ref)
  {
    hide LeftBy;
    var i := FirstInsertOf(log, ref);
    var r := LastReplaceOf(log, ref);
    InsertedLeaves(log, ref, i, r);
    PresentLeaves(LeftBy(None, log, ref).value, log, ref, r);
    forall s: nat, j: nat | LastReplace(log, ref, s) && FirstInsert(log, ref, j) ensures s == r && j == i {
    }
    if r >= 0 {
      assert LastReplace(log, ref, r as nat) && FirstInsert(log, ref, i);
    }
  }

  /** Applying the log again leaves the store as it is exactly when no document
      is in that case. */
  lemma ReplaySkippingExactly(store: Store, log: seq<Delta>)
    ensures Skipped(Skipped(store, log), log) == Skipped(store, log) <==> forall ref :: !SkippedReplace(store, log, ref)
  {
    hide Skipped, SkippedReplace;
    forall ref ensures At(Skipped(Skipped(store, log), log), ref) != At(Skipped(store, log), ref) <==> SkippedReplace(store, log, ref) {
      ReplaySkippingAt(store, log, ref);
    }
    if forall ref :: !SkippedReplace(store, log, ref) {
      forall ref ensures At(Skipped(Skipped(store, log), log), ref) == At(Skipped(store, log), ref) {
        assert !SkippedReplace(store, log, ref);
      }
      SameStore(Skipped(Skipped(store, log), log), Skipped(store, log));
    }
  }

  /** The same for a suffix of the log, applied again after the whole of it. */
  lemma SuffixSkippingExactly(store: Store, log: seq<Delta>, from: nat)
    requires from <= |log|
    ensures Skipped(Skipped(store, log), log[from..]) == Skipped(store, log) <==>
      forall ref :: !SkippedReplace(Skipped(store, log[..from]), log[from..], ref)
  {
    SkippedMore(store, log[..from], log[from..]);
    assert log == log[..from] + log[from..];
    ReplaySkippingExactly(Skipped(store, log[..from]), log[from..]);
  }

  /** The smallest such log: the replace is skipped the first time and not the second. */
  lemma SkippingDiverges(ref: Ref, v: string, w: string)
    requires v != w
    ensures var log := [Replace(ref, v), Insert(ref, w)];
      Skipped(map[], log) == map[ref := w] && Skipped(Skipped(map[], log), log) == map[ref := v]
    ensures SkippedReplace(map[], [Replace(ref, v), Insert(ref, w)], ref)
  {
    var log := [Replace(ref, v), Insert(ref, w)];
    TwoDeltas(map[], log[0], log[1]);
    TwoDeltas(map[ref := w], log[0], log[1]);
    assert LastReplace(log, ref, 0) && FirstInsert(log, ref, 1);
  }

  lemma TwoDeltas(store: Store, first: Delta, second: Delta)
    ensures Skipped(store, [first, second]) == Apply(LogAndSkip, Apply(LogAndSkip, store, first).store, second).store
  {
    SkippedNext(store, [], first);
    SkippedNext(store, [first], second);
    assert [] + [first] == [first] && [first] + [second] == [first, second];
  }

  // ----- the policies compared

  /** A log raises under fail exactly when source_wins records a conflict. If it
      does not, all three policies end in the same store and record nothing. */
  lemma {:induction false} PoliciesAgree(store: Store, log: seq<Delta>)
    ensures ApplyAll(Fail, store, log).raised <==> ApplyAll(SourceWins, store, log).conflicts != []
    ensures ApplyAll(Fail, store, log).raised <==> ApplyAll(LogAndSkip, store, log).conflicts != []
    ensures !ApplyAll(LogAndSkip, store, log).raised && !ApplyAll(SourceWins, store, log).raised
    ensures !ApplyAll(Fail, store, log).raised ==>
      && ApplyAll(Fail, store, log) == ApplyAll(SourceWins, store, log)
      && ApplyAll(Fail, store, log) == ApplyAll(LogAndSkip, store, log)
      && ApplyAll(Fail, store, log).conflicts == []
  {
    if log != [] {
      PoliciesAgree(store, log[..|log| - 1]);
    }
  }

  /** A run that raises has applied exactly the deltas before the one that
      conflicts, and has recorded that one conflict. */
  lemma {:induction false} RaisedAtFirst(store: Store, log: seq<Delta>) returns (i: nat)
    requires ApplyAll(Fail, store, log).raised
    ensures i < |log| && ApplyAll(Fail, store, log).store == ApplyAll(SourceWins, store, log[..i]).store
    ensures ApplyAll(SourceWins, store, log[..i]).conflicts == []
    ensures Meets(ApplyAll(SourceWins, store, log[..i]).store, log[i]).Some?
    ensures |ApplyAll(Fail, store, log).conflicts| == 1 && ApplyAll(Fail, store, log).conflicts[0].ref == log[i].ref
  {
    var before := log[..|log| - 1];
    if ApplyAll(Fail, store, before).raised {
      i := RaisedAtFirst(store, before);
      assert before[..i] == log[..i];
    } else {
      i := |log| - 1;
      PoliciesAgree(store, before);
    }
  }

  // ----- the resolver in place

  function CountOf(events: seq<Conflict>, kind: ConflictType): nat
  {
    if events == [] then 0
    else CountOf(events[..|events| - 1], kind) + (if events[|events| - 1].kind == kind then 1 else 0)
  }

  lemma {:induction false} CountsTotal(events: seq<Conflict>)
    ensures CountOf(events, InsertDuplicate) + CountOf(events, ReplaceMissing) == |events|
  {
    if events != [] {
      CountsTotal(events[..|events| - 1]);
    }
  }

  class ConflictLog {
    var events: seq<Conflict>
    var counts: map<ConflictType, nat>

    /** The counts are those of the events. */
    ghost predicate Valid()
      reads this
    {
      forall kind :: CountOf(events, kind) == if kind in counts then counts[kind] else 0
    }

    constructor ()
      ensures Valid() && events == []
    {
      events, counts := [], map[];
    }

    method Record(event: Conflict)
      requires Valid()
      modifies this
      ensures Valid() && events == old(events) + [event]
    {
      assert (events + [event])[..|events|] == events;
      events := events + [event];
      counts := counts[event.kind := (if event.kind in counts then counts[event.kind] else 0) + 1];
    }

    /** The total is the sum of the counts by type. */
    method Summary() returns (total: nat, byType: map<ConflictType, nat>)
      requires Valid()
      ensures total == |events| && byType == counts
      ensures total == (if InsertDuplicate in byType then byType[InsertDuplicate] else 0)
                     + (if ReplaceMissing in byType then byType[ReplaceMissing] else 0)
    {
      CountsTotal(events);
      return |events|, counts;
    }
  }

  /** The database, with the errors it raises. */
  class Writer {
    var store: Store

    constructor (store: Store)
      ensures this.store == store
    {
      this.store := store;
    }

    method InsertDocument(ref: Ref, document: string) returns (error: Option<ConflictType>)
      modifies this
      ensures error == Meets(old(store), Insert(ref, document))
      ensures store == if error.None? then Written(old(store), Insert(ref, document)) else old(store)
    {
      if ref in store {
        return Some(InsertDuplicate);
      }
      store := store[ref := document];
      return None;
    }

    method ReplaceDocument(ref: Ref, document: string) returns (error: Option<ConflictType>)
      modifies this
      ensures error == Meets(old(store), Replace(ref, document))
      ensures store == if error.None? then Written(old(store), Replace(ref, document)) else old(store)
    {
      if ref !in store {
        return Some(ReplaceMissing);
      }
      store := store[ref := document];
      return None;
    }

    /** A missing document is ignored. */
    method DeleteDocument(ref: Ref)
      modifies this
      ensures store == Written(old(store), Delete(ref))
    {
      store := store - {ref};
    }
  }

  class ConflictResolver {
    const policy: Policy
    const log: ConflictLog

    constructor (policy: Policy)
      ensures this.policy == policy && fresh(log) && log.Valid() && log.events == []
    {
      this.policy := policy;
      log := new ConflictLog();
    }

    method ResolveInsert(writer: Writer, ref: Ref, document: string) returns (ok: bool, raised: bool)
      requires log.Valid()
      modifies writer, log
      ensures Does(Insert(ref, document), old(writer.store), old(log.events), writer.store, log.events, ok, raised)
      ensures log.Valid()
    {
      var error := writer.InsertDocument(ref, document);
      if error.None? {
        return true, false;
      }
      var conflict := Conflict(InsertDuplicate, ref, policy, None);
      match policy
      case SourceWins =>
        var _ := writer.ReplaceDocument(ref, document);
        log.Record(conflict.(resolution := Some("upsert (replaced existing)")));
        return true, false;
      case LogAndSkip =>
        log.Record(conflict.(resolution := Some("skipped")));
        return false, false;
      case Fail =>
        log.Record(conflict);
        return false, true;
    }

    method ResolveReplace(writer: Writer, ref: Ref, document: string) returns (ok: bool, raised: bool)
      requires log.Valid()
      modifies writer, log
      ensures Does(Replace(ref, document), old(writer.store), old(log.events), writer.store, log.events, ok, raised)
      ensures log.Valid()
    {
      var error := writer.ReplaceDocument(ref, document);
      if error.None? {
        return true, false;
      }
      var conflict := Conflict(ReplaceMissing, ref, policy, None);
      match policy
      case SourceWins =>
        var _ := writer.InsertDocument(ref, document);
        log.Record(conflict.(resolution := Some("inserted (was missing)")));
        return true, false;
      case LogAndSkip =>
        log.Record(conflict.(resolution := Some("skipped (target missing)")));
        return false, false;
      case Fail =>
        log.Record(conflict);
        return false, true;
    }

    method ResolveDelete(writer: Writer, ref: Ref) returns (ok: bool)
      modifies writer
      ensures Does(Delete(ref), old(writer.store), log.events, writer.store, log.events, ok, false)
    {
      writer.DeleteDocument(ref);
      return true;
    }

    /** Exactly what `Apply` says about the delta. */
    predicate Does(delta: Delta, before: Store, eventsBefore: seq<Conflict>, after: Store, events: seq<Conflict>,
                   ok: bool, raised: bool)
    {
      var effect := Apply(policy, before, delta);
      && after == effect.store && ok == effect.applied && raised == effect.raised
      && events == eventsBefore + (if effect.conflict.Some? then [effect.conflict.value] else [])
    }

    /** The handler's loop over a batch of deltas. */
    method ApplyDeltas(writer: Writer, deltas: seq<Delta>) returns (raised: bool)
      requires log.Valid()
      modifies writer, log
      ensures log.Valid()
      ensures var run := ApplyAll(policy, old(writer.store), deltas);
        writer.store == run.store && log.events == old(log.events) + run.conflicts && raised == run.raised
    {
      raised := false;
      for i := 0 to |deltas|
        invariant log.Valid() && !raised
        invariant Follows(old(writer.store), deltas[..i], old(log.events), writer.store, log.events, raised)
      {
        hide ApplyAll, Does, Follows;
        ghost var was, wasEvents := writer.store, log.events;
        var ok;
        match deltas[i] {
          case Insert(ref, document) => ok, raised := ResolveInsert(writer, ref, document);
          case Replace(ref, document) => ok, raised := ResolveReplace(writer, ref, document);
          case Delete(ref) => ok := ResolveDelete(writer, ref);
        }
        FollowsNext(old(writer.store), deltas, i, old(log.events), was, wasEvents, writer.store, log.events, ok, raised);
        if raised {
          FollowsRaised(old(writer.store), deltas, i + 1, old(log.events), writer.store, log.events);
          return;
        }
      }
      assert deltas[..|deltas|] == deltas;
    }

    lemma FollowsNext(before: Store, deltas: seq<Delta>, i: nat, eventsBefore: seq<Conflict>, was: Store,
                      wasEvents: seq<Conflict>,
                      store: Store, events: seq<Conflict>, ok: bool, raised: bool)
      requires i < |deltas| && Follows(before, deltas[..i], eventsBefore, was, wasEvents, false)
      requires Does(deltas[i], was, wasEvents, store, events, ok, raised)
      ensures Follows(before, deltas[..i + 1], eventsBefore, store, events, raised)
    {
      hide Apply;
      assert deltas[..i + 1][..i] == deltas[..i];
    }

    lemma FollowsRaised(before: Store, deltas: seq<Delta>, i: nat, eventsBefore: seq<Conflict>, store: Store,
                        events: seq<Conflict>)
      requires i <= |deltas| && Follows(before, deltas[..i], eventsBefore, store, events, true)
      ensures var run := ApplyAll(policy, before, deltas); store == run.store && events == eventsBefore + run.conflicts && run.raised
    {
      hide ApplyAll;
      RaisedStays(policy, before, deltas, i);
    }

    ghost predicate Follows(before: Store, deltas: seq<Delta>, eventsBefore: seq<Conflict>, store: Store,
                            events: seq<Conflict>, raised: bool)
    {
      var run := ApplyAll(policy, before, deltas);
      store == run.store && events == eventsBefore + run.conflicts && raised == run.raised
    }
  }

  lemma {:induction false} RaisedStays(policy: Policy, store: Store, log: seq<Delta>, i: nat)
    requires i <= |log| && ApplyAll(policy, store, log[..i]).raised
    ensures ApplyAll(policy, store, log) == ApplyAll(policy, store, log[..i])
  {
    if i == |log| {
      assert log[..i] == log;
    } else {
      assert log[..|log| - 1][..i] == log[..i];
      RaisedStays(policy, store, log[..|log| - 1], i);
    }
  }
}
