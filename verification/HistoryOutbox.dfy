/**
 The queue of history entries kept under a control plane (src/r2g/governed.py).
 Files are maps from an entry's id to its content, replaced atomically; the
 control plane's history ignores an id it already holds. Every read, write and
 remote call of a delivery is a step of its own, deliverers interleave freely,
 and any of them may stop between two steps.
 */
module HistoryOutbox {
  import opened Characters

  datatype Entry = Entry(id: string, content: string)

  datatype Status = Pending | Delivered | Undeliverable

  /** What a file of either folder holds. */
  datatype File = File(token: Option<string>, entry: Entry, attempts: nat, status: Option<Status>, lastError: Option<string>)

  /** What one call to the control plane comes to. An unavailable control plane
      may have recorded the entry before the connection was lost. */
  datatype Answer = Recorded | Unavailable(applied: bool, error: string) | Rejected(error: string)

  /** An entry with the token that attributes it, as it is sent and as the control plane is asked. */
  datatype Request = Request(token: Option<string>, entry: Entry)

  /** Where a delivery has got to, with the copy it read. */
  datatype Stage =
    | Holding(file: File)
    | Retrying(file: File)
    | Finishing(file: File, status: Status, error: Option<string>)
    | Unlinking(id: string)

  /** For the statements below, `queued` remembers every entry ever sent and `asked` every
      request the control plane was asked to record. */
  datatype State = State(
    pending: map<string, File>,
    done: map<string, File>,
    history: seq<Entry>,
    delivering: map<nat, Stage>,
    queued: map<string, Request>,
    asked: seq<Request>)

  datatype Step =
    | Queue(token: string, entry: Entry)
    | Begin(deliverer: nat, id: string)
    | Ask(deliverer: nat, answer: Answer)
    | Requeue(deliverer: nat)
    | Finish(deliverer: nat)
    | Unlink(deliverer: nat)
    | Crash(deliverer: nat)

  predicate Known(history: seq<Entry>, id: string)
  {
    exists k :: 0 <= k < |history| && history[k].id == id
  }

  /** An id is recorded at most once. */
  function Remember(history: seq<Entry>, e: Entry): seq<Entry>
  {
    if Known(history, e.id) then history else history + [e]
  }

  function AfterAnswer(history: seq<Entry>, e: Entry, a: Answer): seq<Entry>
  {
    match a
    case Recorded => Remember(history, e)
    case Unavailable(applied, _) => if applied then Remember(history, e) else history
    case Rejected(_) => history
  }

  function NewFile(token: string, e: Entry): File
  {
    File(Some(token), e, 0, None, None)
  }

  /** The error as kept in a file: at most its first 500 characters. */
  function Cut(error: string): (kept: string)
    ensures kept <= error && |kept| <= 500 && (|kept| == 500 || kept == error)
  {
    if |error| > 500 then error[..500] else error
  }

  function RetryFile(f: File, error: string): File
  {
    f.(attempts := f.attempts + 1, lastError := Some(Cut(error)))
  }

  function DoneFile(f: File, status: Status, error: Option<string>): File
  {
    File(None, f.entry, f.attempts + 1, Some(status),
         if error.Some? && error.value != [] then Some(Cut(error.value)) else None)
  }

  function StageAfter(f: File, a: Answer): Stage
  {
    match a
    case Recorded => Finishing(f, Delivered, None)
    case Unavailable(_, error) => Retrying(RetryFile(f, error))
    case Rejected(error) => Finishing(f, Undeliverable, Some(error))
  }

  predicate Enabled(s: State, step: Step)
  {
    match step
    case Queue(_, e) => e.id !in s.queued
    case Begin(d, id) => d !in s.delivering && id in s.pending
    case Ask(d, _) => d in s.delivering && s.delivering[d].Holding?
    case Requeue(d) => d in s.delivering && s.delivering[d].Retrying?
    case Finish(d) => d in s.delivering && s.delivering[d].Finishing?
    case Unlink(d) => d in s.delivering && s.delivering[d].Unlinking?
    case Crash(d) => d in s.delivering
  }

  function Next(s: State, step: Step): State
    requires Enabled(s, step)
  {
    match step
    case Queue(token, e) =>
      s.(pending := s.pending[e.id := NewFile(token, e)], queued := s.queued[e.id := Request(Some(token), e)])
    case Begin(d, id) =>
      s.(delivering := s.delivering[d := Holding(s.pending[id])])
    case Ask(d, a) =>
      var f := s.delivering[d].file;
      s.(history := AfterAnswer(s.history, f.entry, a), asked := s.asked + [Request(f.token, f.entry)],
         delivering := s.delivering[d := StageAfter(f, a)])
    case Requeue(d) =>
      var f := s.delivering[d].file;
      s.(pending := s.pending[f.entry.id := f], delivering := s.delivering - {d})
    case Finish(d) =>
      var g := s.delivering[d];
      var id := g.file.entry.id;
      s.(done := s.done[id := DoneFile(g.file, g.status, g.error)], delivering := s.delivering[d := Unlinking(id)])
    case Unlink(d) =>
      s.(pending := s.pending - {s.delivering[d].id}, delivering := s.delivering - {d})
    case Crash(d) =>
      s.(delivering := s.delivering - {d})
  }

  const EMPTY := State(map[], map[], [], map[], map[], [])

  // ----- what every step keeps

  ghost predicate Filed(s: State)
  {
    FiledIn(s.pending, s.done, s.queued)
  }

  ghost predicate FiledIn(pending: map<string, File>, done: map<string, File>, queued: map<string, Request>)
  {
    && (forall id :: id in queued ==> id in pending || id in done)
    && (forall id :: id in pending ==> id in queued && pending[id].entry == queued[id].entry && queued[id].entry.id == id)
    && (forall id :: id in done ==> id in queued && done[id].entry == queued[id].entry && queued[id].entry.id == id)
  }

  ghost predicate HistorySound(s: State)
  {
    && (forall i, j :: 0 <= i < j < |s.history| ==> s.history[i].id != s.history[j].id)
    && (forall i :: 0 <= i < |s.history| ==> s.history[i].id in s.queued && s.queued[s.history[i].id].entry == s.history[i])
  }

  ghost predicate TokensHeld(s: State)
  {
    && (forall id :: id in s.queued ==> s.queued[id].token.Some?)
    && (forall id :: id in s.pending ==>
          id in s.queued && s.pending[id].token == s.queued[id].token && s.pending[id].status.None?)
    && (forall id :: id in s.done ==> s.done[id].token.None? && s.done[id].status.Some?)
  }

  /** The control plane is asked about entries that were sent, each with its own token. */
  ghost predicate AskedAsSent(s: State)
  {
    forall r :: r in s.asked ==> r.entry.id in s.queued && r == s.queued[r.entry.id]
  }

  ghost predicate DeliveredIsKnown(s: State)
  {
    forall id :: id in s.done && s.done[id].status == Some(Delivered) ==> Known(s.history, id)
  }

  ghost predicate StageSound(s: State, g: Stage)
  {
    match g
    case Unlinking(id) => id in s.done
    case Finishing(f, status, _) => CopySound(s, f) && (status.Delivered? ==> Known(s.history, f.entry.id))
    case Holding(f) => CopySound(s, f)
    case Retrying(f) => CopySound(s, f)
  }

  /** A copy some deliverer read is of an entry that was sent, with its token. */
  ghost predicate CopySound(s: State, f: File)
  {
    f.token.Some? && f.status.None? && f.entry.id in s.queued && s.queued[f.entry.id] == Request(f.token, f.entry)
  }

  ghost predicate StagesSound(s: State)
  {
    forall d :: d in s.delivering ==> StageSound(s, s.delivering[d])
  }

  ghost predicate Safe(s: State)
  {
    Filed(s) && HistorySound(s) && TokensHeld(s) && AskedAsSent(s) && DeliveredIsKnown(s) && StagesSound(s)
  }

  lemma RememberFacts(history: seq<Entry>, e: Entry, a: Answer)
    ensures var after := AfterAnswer(history, e, a);
      && (forall id :: Known(after, id) <==> Known(history, id) || (id == e.id && (a.Recorded? || (a.Unavailable? && a.applied))))
      && (forall k :: 0 <= k < |after| ==> after[k] in history || after[k] == e)
  {
    var after := AfterAnswer(history, e, a);
    forall id | Known(history, id) ensures Known(after, id) {
      var k :| 0 <= k < |history| && history[k].id == id;
      assert after[k].id == id;
    }
    if after != history {
      assert after[|history|] == e;
    }
  }

  /** Every step keeps the queue safe and forgets nothing. */
  lemma SafeNext(s: State, step: Step)
    requires Safe(s) && Enabled(s, step)
    ensures Safe(Next(s, step)) && Extends(s, Next(s, step))
  {
    var t := Next(s, step);
    FiledNext(s, step);
    TokensNext(s, step);
    HistoryNext(s, step);
    KnownNext(s, step);
    AskedNext(s, step);
    forall d | d in t.delivering ensures StageSound(t, t.delivering[d]) {
      StageNext(s, step, d);
    }
  }

  /** What was sent stays sent and what the history holds it keeps. */
  ghost predicate Extends(s: State, t: State)
  {
    && (forall id :: id in s.queued ==> id in t.queued && t.queued[id] == s.queued[id])
    && (forall id :: Known(s.history, id) ==> Known(t.history, id))
    && s.asked <= t.asked
  }

  lemma FiledNext(s: State, step: Step)
    requires Safe(s) && Enabled(s, step)
    ensures Filed(Next(s, step))
  {
    hide FiledIn;
    match step {
      case Queue(token, e) => FiledQueue(s.pending, s.done, s.queued, token, e);
      case Requeue(d) =>
        assert StageSound(s, s.delivering[d]);
        FiledWrite(s.pending, s.done, s.queued, s.delivering[d].file);
      case Finish(d) =>
        assert StageSound(s, s.delivering[d]);
        var g := s.delivering[d];
        FiledDone(s.pending, s.done, s.queued, DoneFile(g.file, g.status, g.error));
      case Unlink(d) =>
        assert StageSound(s, s.delivering[d]);
        FiledUnlink(s.pending, s.done, s.queued, s.delivering[d].id);
      case _ =>
    }
  }

  lemma FiledQueue(pending: map<string, File>, done: map<string, File>, queued: map<string, Request>, token: string, e: Entry)
    requires FiledIn(pending, done, queued) && e.id !in queued
    ensures FiledIn(pending[e.id := NewFile(token, e)], done, queued[e.id := Request(Some(token), e)])
  {
  }

  lemma FiledWrite(pending: map<string, File>, done: map<string, File>, queued: map<string, Request>, f: File)
    requires FiledIn(pending, done, queued) && f.entry.id in queued && queued[f.entry.id].entry == f.entry
    ensures FiledIn(pending[f.entry.id := f], done, queued)
  {
  }

  lemma FiledDone(pending: map<string, File>, done: map<string, File>, queued: map<string, Request>, f: File)
    requires FiledIn(pending, done, queued) && f.entry.id in queued && queued[f.entry.id].entry == f.entry
    ensures FiledIn(pending, done[f.entry.id := f], queued)
  {
  }

  lemma FiledUnlink(pending: map<string, File>, done: map<string, File>, queued: map<string, Request>, id: string)
    requires FiledIn(pending, done, queued) && id in done
    ensures FiledIn(pending - {id}, done, queued)
  {
  }

  lemma TokensNext(s: State, step: Step)
    requires Safe(s) && Enabled(s, step)
    ensures TokensHeld(Next(s, step))
  {
    if step.Requeue? {
      assert StageSound(s, s.delivering[step.deliverer]);
    }
  }

  lemma AskedNext(s: State, step: Step)
    requires Safe(s) && Enabled(s, step)
    ensures AskedAsSent(Next(s, step)) && s.asked <= Next(s, step).asked
  {
    if step.Ask? {
      assert StageSound(s, s.delivering[step.deliverer]);
    }
  }

  lemma KnownNext(s: State, step: Step)
    requires Safe(s) && Enabled(s, step)
    ensures DeliveredIsKnown(Next(s, step)) && Extends(s, Next(s, step))
  {
    if step.Ask? {
      RememberFacts(s.history, s.delivering[step.deliverer].file.entry, step.answer);
    }
    if step.Finish? {
      assert StageSound(s, s.delivering[step.deliverer]);
    }
  }

  lemma HistoryNext(s: State, step: Step)
    requires Safe(s) && Enabled(s, step)
    ensures HistorySound(Next(s, step))
  {
    if step.Ask? {
      var e := s.delivering[step.deliverer].file.entry;
      assert StageSound(s, s.delivering[step.deliverer]);
      RememberFacts(s.history, e, step.answer);
    }
  }

  lemma StageNext(s: State, step: Step, d: nat)
    requires Safe(s) && Enabled(s, step) && d in Next(s, step).delivering
    ensures StageSound(Next(s, step), Next(s, step).delivering[d])
  {
    if d in s.delivering {
      assert StageSound(s, s.delivering[d]);
    }
    if step.Ask? {
      RememberFacts(s.history, s.delivering[step.deliverer].file.entry, step.answer);
    }
  }

  // ----- whole runs

  ghost predicate CanRun(s: State, steps: seq<Step>)
    decreases |steps|
  {
    steps == [] || (Enabled(s, steps[0]) && CanRun(Next(s, steps[0]), steps[1..]))
  }

  ghost function Final(s: State, steps: seq<Step>): State
    requires CanRun(s, steps)
    decreases |steps|
  {
    if steps == [] then s else Final(Next(s, steps[0]), steps[1..])
  }

  lemma {:induction false} RunSafe(s: State, steps: seq<Step>)
    requires Safe(s) && CanRun(s, steps)
    ensures Safe(Final(s, steps)) && Extends(s, Final(s, steps))
    decreases |steps|
  {
    if steps != [] {
      SafeNext(s, steps[0]);
      RunSafe(Next(s, steps[0]), steps[1..]);
    }
  }

  /** Whatever is sent and however deliveries are interrupted: a queued entry is
      in one of the folders ever after, unchanged; the history holds it at most
      once; one filed as delivered is in the history; and no finished file has a token. */
  lemma OutboxSafety(before: seq<Step>, after: seq<Step>, id: string)
    requires CanRun(EMPTY, before) && CanRun(Final(EMPTY, before), after)
    requires id in Final(EMPTY, before).queued
    ensures var s, t := Final(EMPTY, before), Final(Final(EMPTY, before), after);
      && (id in t.pending || id in t.done)
      && (id in t.pending ==> t.pending[id].entry == s.queued[id].entry && t.pending[id].token == s.queued[id].token)
      && (id in t.done ==> t.done[id].entry == s.queued[id].entry && t.done[id].token == None)
      && (id in t.done && t.done[id].status == Some(Delivered) ==> s.queued[id].entry in t.history)
      && (forall i, j :: 0 <= i < j < |t.history| ==> t.history[i].id != t.history[j].id)
  {
    RunSafe(EMPTY, before);
    RunSafe(Final(EMPTY, before), after);
    var t := Final(Final(EMPTY, before), after);
    if id in t.done && t.done[id].status == Some(Delivered) {
      assert Known(t.history, id);
    }
  }

  /** An entry queued by a step of the run, with its token, is remembered as such. */
  lemma {:induction false} QueuedIsSent(s: State, steps: seq<Step>, k: nat)
    requires Safe(s) && CanRun(s, steps) && k < |steps| && steps[k].Queue?
    ensures var e := steps[k].entry;
      e.id in Final(s, steps).queued && Final(s, steps).queued[e.id] == Request(Some(steps[k].token), e)
    decreases |steps|
  {
    hide Safe, Known;
    SafeNext(s, steps[0]);
    if k == 0 {
      RunSafe(Next(s, steps[0]), steps[1..]);
    } else {
      QueuedIsSent(Next(s, steps[0]), steps[1..], k - 1);
    }
  }

  /** A file or the copy of a deliverer. */
  ghost predicate Holds(s: State, f: File)
  {
    || (exists id :: id in s.pending && s.pending[id] == f)
    || (exists d :: d in s.delivering && !s.delivering[d].Unlinking? && s.delivering[d].file == f)
  }

  /** Over all runs an entry keeps the token it was sent with: in its pending file, in every
      copy a deliverer holds, and whenever the control plane is asked to record it. */
  lemma TokenKept(steps: seq<Step>, k: nat)
    requires CanRun(EMPTY, steps) && k < |steps| && steps[k].Queue?
    ensures var t, token, e := Final(EMPTY, steps), steps[k].token, steps[k].entry;
      && (forall f :: Holds(t, f) && f.entry.id == e.id ==> f.token == Some(token) && f.entry == e)
      && (forall r :: r in t.asked && r.entry.id == e.id ==> r == Request(Some(token), e))
  {
    RunSafe(EMPTY, steps);
    QueuedIsSent(EMPTY, steps, k);
    var t, e := Final(EMPTY, steps), steps[k].entry;
    assert AskedAsSent(t);
    hide Safe, Final, CanRun, Holds;
    forall f | Holds(t, f) && f.entry.id == e.id ensures Request(f.token, f.entry) == t.queued[e.id] {
      HeldAsSent(t, f);
    }
  }

  lemma HeldAsSent(s: State, f: File)
    requires Safe(s) && Holds(s, f)
    ensures f.entry.id in s.queued && s.queued[f.entry.id] == Request(f.token, f.entry)
  {
    if id :| id in s.pending && s.pending[id] == f {
      assert Filed(s) && TokensHeld(s);
    } else {
      var d :| d in s.delivering && !s.delivering[d].Unlinking? && s.delivering[d].file == f;
      assert StageSound(s, s.delivering[d]);
    }
  }

  // ----- when the folders tell the truth

  /** Deliveries under the lock: one at a time, each of a file that is pending. */
  ghost predicate Locked(s: State)
  {
    && (forall c, d :: c in s.delivering && d in s.delivering ==> c == d)
    && (forall d :: d in s.delivering ==>
          if s.delivering[d].Unlinking? then s.delivering[d].id in s.pending
          else s.delivering[d].file.entry.id in s.pending)
  }

  ghost predicate TakesLock(s: State, step: Step)
  {
    step.Begin? ==> s.delivering == map[]
  }

  /** The delivery that is about to file `id` as delivered. */
  ghost predicate Carries(s: State, g: Stage, id: string)
  {
    || (g.Finishing? && g.status.Delivered? && g.file.entry.id == id)
    || (g.Unlinking? && g.id == id && id in s.done && s.done[id].status == Some(Delivered))
  }

  ghost predicate Carried(s: State, id: string)
  {
    exists d :: d in s.delivering && Carries(s, s.delivering[d], id)
  }

  /** Whatever the history holds is filed as delivered and no longer pending, or
      a delivery is about to file it so. */
  ghost predicate Exact(s: State)
  {
    forall id :: Known(s.history, id) ==> Carried(s, id) || FiledDelivered(s, id)
  }

  ghost predicate FiledDelivered(s: State, id: string)
  {
    id in s.done && s.done[id].status == Some(Delivered) && id !in s.pending
  }

  /** The entry was recorded but the deliverer does not live to file it, or is not told. */
  ghost predicate Ambiguous(s: State, step: Step)
    requires Enabled(s, step)
  {
    || (step.Ask? && step.answer.Unavailable? && step.answer.applied)
    || (step.Crash? && exists id :: Carries(s, s.delivering[step.deliverer], id))
  }

  lemma LockedNext(s: State, step: Step)
    requires Safe(s) && Locked(s) && Enabled(s, step) && TakesLock(s, step)
    ensures Locked(Next(s, step))
  {
    if step.Begin? {
      assert Filed(s);
    }
  }

  /** Under the lock, the folders stop matching the history exactly at an
      ambiguous step. */
  lemma ExactNext(s: State, step: Step)
    requires Safe(s) && Locked(s) && Exact(s) && Enabled(s, step) && TakesLock(s, step)
    ensures Exact(Next(s, step)) <==> !Ambiguous(s, step)
  {
    if Ambiguous(s, step) {
      AmbiguousBreaks(s, step);
    } else {
      var t := Next(s, step);
      forall id | Known(t.history, id) ensures Carried(t, id) || FiledDelivered(t, id) {
        ExactKept(s, step, id);
      }
    }
  }

  lemma AmbiguousBreaks(s: State, step: Step)
    requires Safe(s) && Locked(s) && Enabled(s, step) && Ambiguous(s, step)
    ensures !Exact(Next(s, step))
  {
    var t, g := Next(s, step), s.delivering[step.deliverer];
    assert StageSound(s, g);
    var id := if g.Unlinking? then g.id else g.file.entry.id;
    if step.Ask? {
      RememberFacts(s.history, g.file.entry, step.answer);
    }
    assert Known(t.history, id) && !Carried(t, id) && id in t.pending;
  }

  lemma ExactKept(s: State, step: Step, id: string)
    requires Safe(s) && Locked(s) && Exact(s) && Enabled(s, step) && TakesLock(s, step) && !Ambiguous(s, step)
    requires Known(Next(s, step).history, id)
    ensures Carried(Next(s, step), id) || FiledDelivered(Next(s, step), id)
  {
    var t := Next(s, step);
    if step.Ask? {
      RememberFacts(s.history, s.delivering[step.deliverer].file.entry, step.answer);
    }
    if !Known(s.history, id) {
      assert Carries(t, t.delivering[step.deliverer], id);
    } else if FiledDelivered(s, id) {
      assert step.Queue? ==> id in s.queued;
    } else {
      var d :| d in s.delivering && Carries(s, s.delivering[d], id);
      if step.Finish? || step.Queue? {
        assert Carries(t, t.delivering[d], id);
      }
    }
  }

  ghost predicate Undisturbed(s: State, steps: seq<Step>)
    requires CanRun(s, steps)
    decreases |steps|
  {
    steps == [] ||
    (TakesLock(s, steps[0]) && !Ambiguous(s, steps[0]) && Undisturbed(Next(s, steps[0]), steps[1..]))
  }

  /** After any run under the lock without an ambiguous step, once no delivery is
      under way, an entry is in the history exactly when it is filed as delivered. */
  lemma {:induction false} UndisturbedRun(s: State, steps: seq<Step>)
    requires Safe(s) && Locked(s) && Exact(s) && CanRun(s, steps) && Undisturbed(s, steps)
    ensures Locked(Final(s, steps)) && Exact(Final(s, steps))
    ensures Final(s, steps).delivering == map[] ==>
      forall id :: Known(Final(s, steps).history, id) <==> FiledDelivered(Final(s, steps), id)
    decreases |steps|
  {
    if steps != [] {
      SafeNext(s, steps[0]);
      LockedNext(s, steps[0]);
      ExactNext(s, steps[0]);
      UndisturbedRun(Next(s, steps[0]), steps[1..]);
    } else if s.delivering == map[] {
      forall id ensures Known(s.history, id) <==> FiledDelivered(s, id) {
        assert !Carried(s, id);
      }
    }
  }

  /** The steps of a delivery that is not interrupted. */
  function DeliverySteps(d: nat, id: string, a: Answer): seq<Step>
  {
    if a.Unavailable? then [Begin(d, id), Ask(d, a), Requeue(d)] else [Begin(d, id), Ask(d, a), Finish(d), Unlink(d)]
  }

  /** What such a delivery leaves behind. */
  function AfterDelivery(s: State, id: string, a: Answer): State
    requires id in s.pending
  {
    var f := s.pending[id];
    match StageAfter(f, a)
    case Retrying(g) =>
      s.(history := AfterAnswer(s.history, f.entry, a), asked := s.asked + [Request(f.token, f.entry)],
         pending := s.pending[id := g])
    case Finishing(_, status, error) =>
      s.(history := AfterAnswer(s.history, f.entry, a), asked := s.asked + [Request(f.token, f.entry)],
         done := s.done[id := DoneFile(f, status, error)], pending := s.pending - {id})
    case _ => s
  }

  lemma DeliveryRuns(s: State, d: nat, id: string, a: Answer)
    requires Safe(s) && id in s.pending && d !in s.delivering
    ensures CanRun(s, DeliverySteps(d, id, a))
    ensures Final(s, DeliverySteps(d, id, a)) == AfterDelivery(s, id, a)
  {
    var s1 := Next(s, Begin(d, id));
    var s2 := Next(s1, Ask(d, a));
    if a.Unavailable? {
      assert Next(s2, Requeue(d)).delivering == s.delivering;
      RunOne(s2, Requeue(d), []);
      RunOne(s1, Ask(d, a), [Requeue(d)]);
      RunOne(s, Begin(d, id), [Ask(d, a), Requeue(d)]);
    } else {
      FinishRuns(s, s2, d, id, a);
      RunOne(s1, Ask(d, a), [Finish(d), Unlink(d)]);
      RunOne(s, Begin(d, id), [Ask(d, a), Finish(d), Unlink(d)]);
    }
  }

  lemma FinishRuns(s: State, s2: State, d: nat, id: string, a: Answer)
    requires Safe(s) && id in s.pending && d !in s.delivering && !a.Unavailable?
    requires s2 == Next(Next(s, Begin(d, id)), Ask(d, a))
    ensures CanRun(s2, [Finish(d), Unlink(d)])
    ensures Final(s2, [Finish(d), Unlink(d)]) == AfterDelivery(s, id, a)
  {
    var s3 := Next(s2, Finish(d));
    assert Next(s3, Unlink(d)).delivering == s.delivering;
    RunOne(s3, Unlink(d), []);
    RunOne(s2, Finish(d), [Unlink(d)]);
  }

  lemma AfterDeliveryFacts(s: State, id: string, a: Answer)
    requires Safe(s) && id in s.pending && s.delivering == map[]
    ensures Kept(s, AfterDelivery(s, id, a), {id})
  {
    DeliveryRuns(s, 0, id, a);
    RunSafe(s, DeliverySteps(0, id, a));
    DeliveryWithin(s, id, a);
  }

  lemma DeliveryWithin(s: State, id: string, a: Answer)
    requires id in s.pending
    ensures Within(s, AfterDelivery(s, id, a), {id})
  {
  }

  lemma TriedFacts(s: State, id: string, a: Answer)
    requires Safe(s) && s.delivering == map[]
    ensures Kept(s, AfterTry(s, id, a), {id})
  {
    if id in s.pending {
      AfterDeliveryFacts(s, id, a);
    }
  }

  ghost predicate Kept(s: State, t: State, ids: set<string>)
  {
    Safe(t) && Extends(s, t) && Within(s, t, ids)
  }

  /** Nothing new is pending, and the folders hold the same about every other id. */
  ghost predicate Within(s: State, t: State, ids: set<string>)
  {
    && t.pending.Keys <= s.pending.Keys && t.queued == s.queued && t.delivering == s.delivering
    && forall id :: id !in ids ==> Same(s, t, id)
  }

  lemma RunOne(s: State, step: Step, rest: seq<Step>)
    requires Enabled(s, step) && CanRun(Next(s, step), rest)
    ensures CanRun(s, [step] + rest) && Final(s, [step] + rest) == Final(Next(s, step), rest)
  {
    assert ([step] + rest)[1..] == rest;
  }

  /** A delivery that is told the entry was recorded, however it was interrupted
      before, files it as delivered for good. */
  lemma RedeliveryHeals(s: State, id: string)
    requires Safe(s) && id in s.pending
    ensures Known(AfterDelivery(s, id, Recorded).history, id)
    ensures FiledDelivered(AfterDelivery(s, id, Recorded), id)
  {
    RememberFacts(s.history, s.pending[id].entry, Recorded);
  }

  lemma EmptySafe()
    ensures Safe(EMPTY) && CanRun(EMPTY, []) && Final(EMPTY, []) == EMPTY
  {
  }

  /** An entry is recorded, its deliverer stops before filing it, and the resend
      is refused: it is filed as undeliverable although the history holds it. */
  lemma RecordedYetUndeliverable(token: string, e: Entry, error: string) returns (steps: seq<Step>)
    ensures CanRun(EMPTY, steps)
    ensures Known(Final(EMPTY, steps).history, e.id) && e.id !in Final(EMPTY, steps).pending
    ensures e.id in Final(EMPTY, steps).done && Final(EMPTY, steps).done[e.id].status == Some(Undeliverable)
  {
    EmptySafe();
    hide Safe, Final, Extends, Known, Filed, DeliverySteps;
    var queued := Next(EMPTY, Queue(token, e));
    var began := Next(queued, Begin(0, e.id));
    var recorded := Next(began, Ask(0, Recorded));
    var stopped := Next(recorded, Crash(0));
    RememberFacts([], e, Recorded);
    SafeNext(EMPTY, Queue(token, e));
    SafeNext(queued, Begin(0, e.id));
    SafeNext(began, Ask(0, Recorded));
    SafeNext(recorded, Crash(0));
    var resend := DeliverySteps(0, e.id, Rejected(error));
    DeliveryRuns(stopped, 0, e.id, Rejected(error));
    RunOne(recorded, Crash(0), resend);
    RunOne(began, Ask(0, Recorded), [Crash(0)] + resend);
    RunOne(queued, Begin(0, e.id), [Ask(0, Recorded)] + ([Crash(0)] + resend));
    RunOne(EMPTY, Queue(token, e), [Begin(0, e.id)] + ([Ask(0, Recorded)] + ([Crash(0)] + resend)));
    steps := [Queue(token, e)] + ([Begin(0, e.id)] + ([Ask(0, Recorded)] + ([Crash(0)] + resend)));
  }

  // ----- what a delivery answers

  /** The status one try answers: a file that is gone counts as delivered. */
  function StatusOf(s: State, id: string, a: Answer): Status
  {
    if id !in s.pending then Delivered
    else
      match a
      case Recorded => Delivered
      case Unavailable(_, _) => Pending
      case Rejected(_) => Undeliverable
  }

  function AfterTry(s: State, id: string, a: Answer): State
  {
    if id in s.pending then AfterDelivery(s, id, a) else s
  }

  /** `delivered` is true of an entry unless its file was gone and it had been filed otherwise. */
  lemma AnswerTrueExactly(s: State, id: string, a: Answer)
    requires Safe(s) && id in s.queued && StatusOf(s, id, a) == Delivered
    ensures FiledDelivered(AfterTry(s, id, a), id) <==> id in s.pending || s.done[id].status == Some(Delivered)
    ensures FiledDelivered(AfterTry(s, id, a), id) ==> Known(AfterTry(s, id, a).history, id)
  {
    if id in s.pending {
      RememberFacts(s.history, s.pending[id].entry, Recorded);
    }
  }

  /** An entry the control plane refuses is filed as undeliverable and is in no history;
      the next try answers `delivered`. */
  lemma UndeliverableAnsweredDelivered(token: string, e: Entry, error: string, a: Answer)
    ensures var s := AfterTry(Next(EMPTY, Queue(token, e)), e.id, Rejected(error));
      && StatusOf(Next(EMPTY, Queue(token, e)), e.id, Rejected(error)) == Undeliverable
      && e.id in s.done && s.done[e.id].status == Some(Undeliverable) && !Known(s.history, e.id)
      && StatusOf(s, e.id, a) == Delivered && AfterTry(s, e.id, a) == s
  {
  }

  /** Trying these files in turn, with these answers. */
  ghost function AfterTries(s: State, paths: seq<string>, answers: seq<Answer>): State
    requires |paths| == |answers|
  {
    if paths == [] then s
    else
      var n := |paths| - 1;
      AfterTry(AfterTries(s, paths[..n], answers[..n]), paths[n], answers[n])
  }

  ghost function Statuses(s: State, paths: seq<string>, answers: seq<Answer>): seq<Status>
    requires |paths| == |answers|
  {
    if paths == [] then []
    else
      var n := |paths| - 1;
      Statuses(s, paths[..n], answers[..n]) + [StatusOf(AfterTries(s, paths[..n], answers[..n]), paths[n], answers[n])]
  }

  lemma TriesNext(s: State, paths: seq<string>, answers: seq<Answer>, id: string, a: Answer)
    requires |paths| == |answers|
    ensures AfterTries(s, paths + [id], answers + [a]) == AfterTry(AfterTries(s, paths, answers), id, a)
    ensures Statuses(s, paths + [id], answers + [a]) == Statuses(s, paths, answers) + [StatusOf(AfterTries(s, paths, answers), id, a)]
  {
    assert (paths + [id])[..|paths|] == paths && (answers + [a])[..|answers|] == answers;
  }

  /** How often the control plane was asked about an entry. */
  ghost function TimesAsked(asked: seq<Request>, id: string): nat
  {
    if asked == [] then 0
    else TimesAsked(asked[..|asked| - 1], id) + (if asked[|asked| - 1].entry.id == id then 1 else 0)
  }

  lemma AskedOnceMore(asked: seq<Request>, r: Request, id: string)
    ensures TimesAsked(asked + [r], id) == TimesAsked(asked, id) + (if r.entry.id == id then 1 else 0)
  {
    assert (asked + [r])[..|asked|] == asked;
  }

  lemma {:induction false} NeverAsked(asked: seq<Request>, id: string)
    requires forall r :: r in asked ==> r.entry.id != id
    ensures TimesAsked(asked, id) == 0
  {
    if asked == [] {
    } else {
      assert asked[|asked| - 1] in asked;
      NeverAsked(asked[..|asked| - 1], id);
    }
  }

  /** The attempts of a file are the requests made for its entry. */
  ghost predicate Counted(s: State)
  {
    && (forall id :: id in s.pending ==> s.pending[id].attempts == TimesAsked(s.asked, id))
    && (forall id :: id in s.done && id !in s.pending ==> s.done[id].attempts == TimesAsked(s.asked, id))
  }

  /** What is kept of an error: all of it, or its first 500 characters if it is longer. */
  ghost predicate KeptOf(error: string, kept: string)
  {
    kept == if |error| <= 500 then error else error[..500]
  }

  /** What a try leaves in the folders, for each answer. */
  lemma TriedExactly(s: State, id: string, a: Answer)
    requires Safe(s) && id in s.pending
    ensures var f, t := s.pending[id], AfterTry(s, id, a);
      && f.entry.id == id
      && (a.Recorded? ==>
            && t.pending == s.pending - {id}
            && t.done == s.done[id := File(None, f.entry, f.attempts + 1, Some(Delivered), None)])
      && (a.Unavailable? ==>
            && t.done == s.done && id in t.pending && t.pending[id].lastError.Some?
            && t.pending == s.pending[id := f.(attempts := f.attempts + 1, lastError := t.pending[id].lastError)]
            && KeptOf(a.error, t.pending[id].lastError.value))
      && (a.Rejected? ==>
            && t.pending == s.pending - {id} && id in t.done
            && t.done == s.done[id := File(None, f.entry, f.attempts + 1, Some(Undeliverable), t.done[id].lastError)]
            && (t.done[id].lastError.None? <==> a.error == "")
            && (a.error != "" ==> KeptOf(a.error, t.done[id].lastError.value)))
      && t.history == (if (a.Recorded? || (a.Unavailable? && a.applied)) && forall e :: e in s.history ==> e.id != id
                       then s.history + [f.entry] else s.history)
  {
    assert Filed(s);
    assert Known(s.history, id) <==> exists e :: e in s.history && e.id == id;
  }

  /** Sending and trying keep the count, so however often the files are tried their
      attempts are exactly the requests the control plane was asked. */
  lemma SendCounted(s: State, token: string, e: Entry)
    requires Safe(s) && Counted(s) && e.id !in s.queued
    ensures Counted(Next(s, Queue(token, e)))
  {
    NeverAsked(s.asked, e.id);
  }

  lemma TryCounted(s: State, id: string, a: Answer)
    requires Safe(s) && Counted(s)
    ensures Counted(AfterTry(s, id, a))
  {
    if id in s.pending {
      var t, r := AfterTry(s, id, a), Request(s.pending[id].token, s.pending[id].entry);
      OneMoreAttempt(s, id, a);
      hide Safe, TimesAsked, AfterTry;
      forall x | x in t.pending ensures t.pending[x].attempts == TimesAsked(t.asked, x) {
        AskedOnceMore(s.asked, r, x);
      }
      forall x | x in t.done && x !in t.pending ensures t.done[x].attempts == TimesAsked(t.asked, x) {
        AskedOnceMore(s.asked, r, x);
      }
    }
  }

  /** A try is one attempt more in the file it leaves, and touches no other. */
  lemma OneMoreAttempt(s: State, id: string, a: Answer)
    requires Safe(s) && id in s.pending
    ensures var t, r := AfterTry(s, id, a), Request(s.pending[id].token, s.pending[id].entry);
      && r.entry.id == id && t.asked == s.asked + [r]
      && (forall x :: x != id ==> Same(s, t, x))
      && (if id in t.pending then t.pending[id].attempts == s.pending[id].attempts + 1
          else id in t.done && t.done[id].attempts == s.pending[id].attempts + 1)
  {
    assert Filed(s);
    hide Safe, AfterAnswer;
  }

  lemma {:induction false} TriesCounted(s: State, paths: seq<string>, answers: seq<Answer>)
    requires Safe(s) && s.delivering == map[] && Counted(s) && |paths| == |answers|
    ensures Counted(AfterTries(s, paths, answers))
    ensures Safe(AfterTries(s, paths, answers)) && AfterTries(s, paths, answers).delivering == map[]
  {
    hide Safe, Counted, AfterTry;
    if paths == [] {
    } else {
      var n := |paths| - 1;
      TriesCounted(s, paths[..n], answers[..n]);
      var t := AfterTries(s, paths[..n], answers[..n]);
      TryCounted(t, paths[n], answers[n]);
      TriedFacts(t, paths[n], answers[n]);
    }
  }

  // ----- the queue in place

  /** The control plane: it may answer anything, and records an id at most once. */
  class ControlPlane {
    var history: seq<Entry>
    var asked: seq<Request>

    constructor ()
      ensures history == [] && asked == []
    {
      history, asked := [], [];
    }

    method Record(token: Option<string>, e: Entry) returns (a: Answer)
      modifies this
      ensures history == AfterAnswer(old(history), e, a) && asked == old(asked) + [Request(token, e)]
    {
      a := *;
      history, asked := AfterAnswer(history, e, a), asked + [Request(token, e)];
    }
  }

  class Outbox {
    var pending: map<string, File>
    var done: map<string, File>
    const remote: ControlPlane
    ghost var queued: map<string, Request>

    constructor (remote: ControlPlane)
      requires remote.history == [] && remote.asked == []
      ensures this.remote == remote && Now() == EMPTY && Safe(Now())
    {
      this.remote := remote;
      pending, done, queued := map[], map[], map[];
    }

    /** The state between two calls. */
    ghost function Now(): State
      reads this, remote
    {
      State(pending, done, remote.history, map[], queued, remote.asked)
    }

    /** Queues the entry first; without background tasks it is delivered at once. */
    method Send(token: string, e: Entry, background: bool) returns (ghost a: Answer)
      requires Safe(Now()) && e.id !in queued
      modifies this, remote
      ensures Safe(Now()) && Extends(old(Now()), Now())
      ensures e.id in queued && queued[e.id] == Request(Some(token), e) && (e.id in pending || e.id in done)
      ensures background ==> e.id in pending && pending[e.id].token == Some(token) && remote.asked == old(remote.asked)
      ensures !background ==> remote.asked == old(remote.asked) + [Request(Some(token), e)]
      ensures var s := Next(old(Now()), Queue(token, e)); Now() == if background then s else AfterDelivery(s, e.id, a)
    {
      hide Safe, Extends, Kept, AfterTry;
      ghost var before := Now();
      SafeNext(before, Queue(token, e));
      pending := pending[e.id := NewFile(token, e)];
      queued := queued[e.id := Request(Some(token), e)];
      ghost var sent := Now();
      assert sent == Next(before, Queue(token, e));
      a := Recorded;
      if background {
        SentFacts(before, sent, sent, token, e);
      } else {
        var status;
        status, a := Deliver(e.id);
        SentNow(before, sent, Now(), token, e, a);
      }
    }

    /** One try, which is one uninterrupted run of the steps. */
    method Deliver(id: string) returns (status: Status, ghost a: Answer)
      requires Safe(Now())
      modifies this, remote
      ensures Kept(old(Now()), Now(), {id})
      ensures status == StatusOf(old(Now()), id, a) && Now() == AfterTry(old(Now()), id, a)
      ensures status == Pending <==> id in pending
    {
      hide Safe, Kept, Known, AfterAnswer;
      ghost var before := Now();
      if id !in pending {
        a := Recorded;
        TriedFacts(before, id, a);
        return Delivered, a;
      }
      var f := pending[id];
      var answer := remote.Record(f.token, f.entry);
      a := answer;
      TriedFacts(before, id, a);
      match answer
      case Unavailable(_, error) =>
        pending := pending[id := RetryFile(f, error)];
        status := Pending;
      case Rejected(error) =>
        MarkDone(id, f, Undeliverable, Some(error));
        status := Undeliverable;
      case Recorded =>
        MarkDone(id, f, Delivered, None);
        status := Delivered;
      assert Now() == AfterTry(before, id, a);
    }

    /** `_finish`: written without the token, then taken out of the queue. */
    method MarkDone(id: string, f: File, status: Status, error: Option<string>)
      modifies this
      ensures done == old(done)[id := DoneFile(f, status, error)] && pending == old(pending) - {id}
      ensures queued == old(queued)
    {
      done := done[id := DoneFile(f, status, error)];
      pending := pending - {id};
    }

    /** Tries each listed file once and counts the answers by status. */
    method DeliverPending(paths: seq<string>) returns (counts: map<Status, nat>, ghost answers: seq<Answer>)
      requires Safe(Now())
      modifies this, remote
      ensures Kept(old(Now()), Now(), set id | id in paths)
      ensures |answers| == |paths| && Now() == AfterTries(old(Now()), paths, answers)
      ensures forall status :: Count(counts, status) == multiset(Statuses(old(Now()), paths, answers))[status]
      ensures Tallied(counts, pending.Keys, paths)
    {
      hide Safe, Kept, AfterTry, StatusOf, Tallied, Tried;
      counts, answers := map[], [];
      TriedNone(Now(), paths);
      for i := 0 to |paths|
        invariant Safe(Now()) && Tried(old(Now()), Now(), paths, i, answers, counts)
      {
        ghost var before := Now();
        var status, a := Deliver(paths[i]);
        TriedNext(old(Now()), before, Now(), paths, i, answers, counts, status, a);
        counts := counts[status := Count(counts, status) + 1];
        answers := answers + [a];
      }
      TriedAll(old(Now()), Now(), paths, answers, counts);
    }
  }

  /** The first `i` files have been tried. */
  ghost predicate Tried(s: State, now: State, paths: seq<string>, i: nat, answers: seq<Answer>,
                        counts: map<Status, nat>)
  {
    && i <= |paths| && |answers| == i
    && Kept(s, now, set id | id in paths)
    && now == AfterTries(s, paths[..i], answers)
    && (forall status :: Count(counts, status) == multiset(Statuses(s, paths[..i], answers))[status])
    && Tallied(counts, now.pending.Keys, paths[..i])
  }

  lemma TriedNone(s: State, paths: seq<string>)
    requires Safe(s)
    ensures Tried(s, s, paths, 0, [], map[])
  {
  }

  lemma TriedAll(s: State, now: State, paths: seq<string>, answers: seq<Answer>, counts: map<Status, nat>)
    requires Tried(s, now, paths, |paths|, answers, counts)
    ensures Kept(s, now, set id | id in paths)
    ensures |answers| == |paths| && now == AfterTries(s, paths, answers)
    ensures forall status :: Count(counts, status) == multiset(Statuses(s, paths, answers))[status]
    ensures Tallied(counts, now.pending.Keys, paths)
  {
    assert paths[..|paths|] == paths;
  }

  lemma TriedNext(s: State, before: State, now: State, paths: seq<string>, i: nat, answers: seq<Answer>,
                  counts: map<Status, nat>, status: Status, a: Answer)
    requires i < |paths| && Tried(s, before, paths, i, answers, counts)
    requires Kept(before, now, {paths[i]}) && status == StatusOf(before, paths[i], a) && now == AfterTry(before, paths[i], a)
    requires status == Pending <==> paths[i] in now.pending
    ensures Safe(now) && Tried(s, now, paths, i + 1, answers + [a], counts[status := Count(counts, status) + 1])
  {
    hide Safe, AfterTry, StatusOf;
    KeptBoth(s, before, now, paths, i);
    hide Kept;
    TriesNext(s, paths[..i], answers, paths[i], a);
    assert paths[..i + 1] == paths[..i] + [paths[i]];
    TallyNext(counts, before.pending.Keys, now.pending.Keys, paths, i, status);
    CountNext(counts, Statuses(s, paths[..i], answers), status);
  }

  lemma CountNext(counts: map<Status, nat>, statuses: seq<Status>, status: Status)
    requires forall t :: Count(counts, t) == multiset(statuses)[t]
    ensures forall t :: Count(counts[status := Count(counts, status) + 1], t) == multiset(statuses + [status])[t]
  {
    assert multiset(statuses + [status]) == multiset(statuses) + multiset{status};
  }

  /** What holds once an entry has been queued, whatever follows. */
  lemma SentFacts(s: State, sent: State, t: State, token: string, e: Entry)
    requires e.id !in s.queued && sent == Next(s, Queue(token, e))
    requires Extends(s, sent) && Safe(t) && (sent == t || Extends(sent, t))
    ensures Extends(s, t)
    ensures e.id in t.queued && t.queued[e.id] == Request(Some(token), e) && (e.id in t.pending || e.id in t.done)
    ensures sent == t ==> e.id in t.pending && t.pending[e.id].token == Some(token)
  {
    assert Filed(t);
    hide Safe, Known;
    assert e.id in sent.queued;
  }

  lemma SentNow(s: State, sent: State, t: State, token: string, e: Entry, a: Answer)
    requires e.id !in s.queued && sent == Next(s, Queue(token, e))
    requires Extends(s, sent) && Kept(sent, t, {e.id}) && t == AfterTry(sent, e.id, a)
    ensures Safe(t) && Extends(s, t) && t == AfterDelivery(sent, e.id, a)
    ensures e.id in t.queued && t.queued[e.id] == Request(Some(token), e) && (e.id in t.pending || e.id in t.done)
    ensures t.asked == s.asked + [Request(Some(token), e)]
  {
    hide Safe, Extends, AfterAnswer;
    SentFacts(s, sent, t, token, e);
  }

  /** Every tried file is counted once; if none counts as pending, none is. */
  ghost predicate Tallied(counts: map<Status, nat>, pending: set<string>, paths: seq<string>)
  {
    && Total(counts) == |paths|
    && (Count(counts, Pending) == 0 ==> forall id :: id in paths ==> id !in pending)
  }

  lemma TallyNext(counts: map<Status, nat>, before: set<string>, after: set<string>, paths: seq<string>, i: nat,
                  status: Status)
    requires i < |paths| && after <= before && Tallied(counts, before, paths[..i])
    requires status != Pending ==> paths[i] !in after
    ensures Tallied(counts[status := Count(counts, status) + 1], after, paths[..i + 1])
  {
    assert paths[..i + 1] == paths[..i] + [paths[i]];
  }

  lemma KeptBoth(s: State, t: State, u: State, paths: seq<string>, i: nat)
    requires i < |paths| && Kept(s, t, set id | id in paths) && Kept(t, u, {paths[i]})
    ensures Safe(u) && Kept(s, u, set id | id in paths) && u.pending.Keys <= t.pending.Keys
  {
    hide Safe;
    forall id | id !in paths ensures Same(s, u, id) {
      assert Same(s, t, id) && Same(t, u, id);
    }
  }

  function Total(counts: map<Status, nat>): nat
  {
    Count(counts, Pending) + Count(counts, Delivered) + Count(counts, Undeliverable)
  }

  /** The folders hold the same about `id`. */
  ghost predicate Same(s: State, t: State, id: string)
  {
    && (id in s.pending <==> id in t.pending) && (id in s.done <==> id in t.done)
    && (id in s.pending ==> s.pending[id] == t.pending[id]) && (id in s.done ==> s.done[id] == t.done[id])
  }

  function Count(counts: map<Status, nat>, status: Status): nat
  {
    if status in counts then counts[status] else 0
  }
}
