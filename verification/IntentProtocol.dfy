/**
 Safety of the intent table over every interleaving of the statements that write it.

 Cancelling is two statements, a read and an unconditional write, and other commands may
 run in between; the trigger, the expiry, the activation and the account-disable updates
 are single guarded statements.
 */
module IntentProtocol {
  import opened Outcomes
  import opened TradingSession
  import opened Intents
  import opened QuoteEvaluation
  import opened IntentStore

  function TriggerCount(triggers: seq<TriggerRow>, id: IntentId): nat {
    if triggers == [] then 0
    else TriggerCount(triggers[..|triggers| - 1], id) + if triggers[|triggers| - 1].intent == id then 1 else 0
  }

  function NoteCount(notes: seq<Note>, id: IntentId): nat {
    if notes == [] then 0
    else NoteCount(notes[..|notes| - 1], id) + if notes[|notes| - 1].intent == id then 1 else 0
  }

  /**
   At most one trigger row per intent; as many notifications as trigger rows; a row once
   triggered is never live; and the status `triggered` always has its row and notification.
   */
  ghost predicate Sound(db: Db) {
    forall id ::
      && NoteCount(db.notes, id) == TriggerCount(db.triggers, id) <= 1
      && (TriggerCount(db.triggers, id) > 0 ==> id in db.rows && !IsLive(db.rows[id].status))
      && (id in db.rows && db.rows[id].status.Triggered? ==> TriggerCount(db.triggers, id) == 1)
  }

  /** Everything but the status and the running trailing values stays as it was. */
  ghost predicate SameRequest(a: Intent, b: Intent) {
    b == a.(status := b.status, baseline := b.baseline, stop := b.stop)
  }

  /** A step that triggers nothing: no row comes back to life or becomes triggered. */
  ghost predicate Quiet(before: Db, after: Db) {
    && after.triggers == before.triggers && after.notes == before.notes
    && before.rows.Keys <= after.rows.Keys
    && (forall id :: id in before.rows ==>
          && SameRequest(before.rows[id], after.rows[id])
          && (IsLive(after.rows[id].status) ==> IsLive(before.rows[id].status))
          && (after.rows[id].status.Triggered? ==> before.rows[id].status.Triggered?))
    && (forall id :: id in after.rows && id !in before.rows ==> IsLive(after.rows[id].status))
  }

  lemma QuietKeepsSound(before: Db, after: Db)
    requires Sound(before) && Quiet(before, after)
    ensures Sound(after)
  {
  }

  lemma ExpireIsQuiet(db: Db, cutoff: Day)
    ensures Quiet(db, ExpiredThrough(db, cutoff))
  {
  }

  lemma ActivateIsQuiet(db: Db, day: Day)
    ensures Quiet(db, ActivatedOn(db, day))
  {
  }

  lemma DisableIsQuiet(db: Db, owner: UserId)
    ensures Quiet(db, OwnerDisabled(db, owner))
  {
  }

  lemma CancelIsQuiet(db: Db, id: IntentId)
    ensures Quiet(db, CancelWrite(db, id))
  {
  }

  lemma BaselineIsQuiet(db: Db, id: IntentId, baseline: Option<real>, stop: Option<real>)
    requires BaselineWritten(db, id, baseline, stop).Ok?
    ensures Quiet(db, BaselineWritten(db, id, baseline, stop).value)
  {
  }

  lemma InsertIsQuiet(db: Db, id: IntentId, i: Intent)
    requires id !in db.rows && IsLive(i.status)
    ensures Quiet(db, Inserted(db, id, i))
  {
  }

  lemma {:induction false} HasTriggerIsCounted(triggers: seq<TriggerRow>, id: IntentId)
    ensures HasTrigger(triggers, id) <==> TriggerCount(triggers, id) > 0
  {
    if triggers != [] {
      var n := |triggers| - 1;
      HasTriggerIsCounted(triggers[..n], id);
      if HasTrigger(triggers, id) && triggers[n].intent != id {
        var k :| 0 <= k < |triggers| && triggers[k].intent == id;
        assert triggers[..n][k].intent == id;
      }
      if HasTrigger(triggers[..n], id) {
        var k :| 0 <= k < n && triggers[..n][k].intent == id;
        assert triggers[k].intent == id;
      }
    }
  }

  lemma PersistKeepsSound(db: Db, row: TriggerRow, kind: NoteKind)
    requires Sound(db) && Persisted(db, row, kind).Ok?
    ensures Sound(Persisted(db, row, kind).value)
  {
    var after := Persisted(db, row, kind).value;
    HasTriggerIsCounted(db.triggers, row.intent);
    assert after.triggers[..|after.triggers| - 1] == db.triggers;
    assert after.notes[..|after.notes| - 1] == db.notes;
  }

  /** In a sound table the guard on the status already rules out a second trigger row. */
  lemma ActiveHasNoTrigger(db: Db, id: IntentId)
    requires Sound(db) && id in db.rows && IsLive(db.rows[id].status)
    ensures !HasTrigger(db.triggers, id)
  {
    HasTriggerIsCounted(db.triggers, id);
  }

  // ---------------------------------------------------------------- every interleaving

  /** The table and the cancellations that have read but not yet written. */
  datatype World = World(db: Db, cancelling: multiset<IntentId>)

  datatype Step =
    | Insert(id: IntentId, intent: Intent)
    | ExpireStep(cutoff: Day)
    | ActivateStep(day: Day)
    | DisableStep(owner: UserId)
    | BeginCancel(id: IntentId, owner: UserId)
    | FinishCancel(id: IntentId)
    | BaselineStep(id: IntentId, baseline: Option<real>, stop: Option<real>)
    | TriggerStep(row: TriggerRow, kind: NoteKind)

  function Next(w: World, s: Step): World {
    match s
    case Insert(id, intent) =>
      if id !in w.db.rows && IsLive(intent.status) then w.(db := Inserted(w.db, id, intent)) else w
    case ExpireStep(cutoff) => w.(db := ExpiredThrough(w.db, cutoff))
    case ActivateStep(day) => w.(db := ActivatedOn(w.db, day))
    case DisableStep(owner) => w.(db := OwnerDisabled(w.db, owner))
    case BeginCancel(id, owner) =>
      if CancelCheck(w.db, id, owner) == Ok(true) then w.(cancelling := w.cancelling + multiset{id}) else w
    case FinishCancel(id) =>
      if id in w.cancelling then World(CancelWrite(w.db, id), w.cancelling - multiset{id}) else w
    case BaselineStep(id, baseline, stop) =>
      var written := BaselineWritten(w.db, id, baseline, stop);
      if written.Ok? then w.(db := written.value) else w
    case TriggerStep(row, kind) =>
      var persisted := Persisted(w.db, row, kind);
      if persisted.Ok? then w.(db := persisted.value) else w
  }

  function Run(w: World, steps: seq<Step>): World
    decreases |steps|
  {
    if steps == [] then w else Run(Next(w, steps[0]), steps[1..])
  }

  const START := World(EmptyDb(), multiset{})

  lemma StepIsQuietOrTrigger(w: World, s: Step)
    ensures Quiet(w.db, Next(w, s).db) || (s.TriggerStep? && Persisted(w.db, s.row, s.kind).Ok?)
  {
    hide ExpiredThrough, ActivatedOn, OwnerDisabled, CancelWrite, BaselineWritten, Inserted, Persisted;
    match s
    case Insert(id, intent) =>
      if id !in w.db.rows && IsLive(intent.status) { InsertIsQuiet(w.db, id, intent); }
    case ExpireStep(cutoff) => ExpireIsQuiet(w.db, cutoff);
    case ActivateStep(day) => ActivateIsQuiet(w.db, day);
    case DisableStep(owner) => DisableIsQuiet(w.db, owner);
    case BeginCancel(_, _) =>
    case FinishCancel(id) => CancelIsQuiet(w.db, id);
    case BaselineStep(id, baseline, stop) =>
      if BaselineWritten(w.db, id, baseline, stop).Ok? { BaselineIsQuiet(w.db, id, baseline, stop); }
    case TriggerStep(_, _) =>
  }

  lemma StepKeepsSound(w: World, s: Step)
    requires Sound(w.db)
    ensures Sound(Next(w, s).db)
  {
    hide Sound, Quiet, Persisted;
    StepIsQuietOrTrigger(w, s);
    if Quiet(w.db, Next(w, s).db) {
      QuietKeepsSound(w.db, Next(w, s).db);
    } else {
      PersistKeepsSound(w.db, s.row, s.kind);
    }
  }

  lemma {:induction false} RunKeepsSound(w: World, steps: seq<Step>)
    requires Sound(w.db)
    ensures Sound(Run(w, steps).db)
    decreases |steps|
  {
    hide Sound, Next;
    if steps != [] {
      StepKeepsSound(w, steps[0]);
      RunKeepsSound(Next(w, steps[0]), steps[1..]);
    }
  }

  /** Every reachable table, whatever the interleaving, is sound. */
  lemma EveryInterleavingIsSound(steps: seq<Step>)
    ensures Sound(Run(START, steps).db)
  {
    RunKeepsSound(START, steps);
  }

  lemma StepKeepsTriggerRows(w: World, s: Step)
    ensures w.db.triggers <= Next(w, s).db.triggers
  {
  }

  lemma {:induction false} RunKeepsTriggerRows(w: World, steps: seq<Step>)
    ensures w.db.triggers <= Run(w, steps).db.triggers
    decreases |steps|
  {
    hide Next;
    if steps != [] {
      StepKeepsTriggerRows(w, steps[0]);
      RunKeepsTriggerRows(Next(w, steps[0]), steps[1..]);
    }
  }

  lemma {:induction false} RunSplits(w: World, first: seq<Step>, more: seq<Step>)
    ensures Run(w, first + more) == Run(Run(w, first), more)
    decreases |first|
  {
    hide Next;
    if first == [] {
      assert first + more == more;
    } else {
      assert (first + more)[1..] == first[1..] + more;
      RunSplits(Next(w, first[0]), first[1..], more);
    }
  }

  /** Once an intent has a trigger row, it keeps exactly that one and never is live again. */
  lemma TriggeredForGood(steps: seq<Step>, more: seq<Step>, id: IntentId)
    requires HasTrigger(Run(START, steps).db.triggers, id)
    ensures var db := Run(START, steps + more).db;
            && TriggerCount(db.triggers, id) == 1 && NoteCount(db.notes, id) == 1
            && id in db.rows && !IsLive(db.rows[id].status)
  {
    hide Next, TriggerCount, NoteCount;
    RunSplits(START, steps, more);
    RunKeepsTriggerRows(Run(START, steps), more);
    EveryInterleavingIsSound(steps + more);
    var before, db := Run(START, steps).db, Run(START, steps + more).db;
    var k :| 0 <= k < |before.triggers| && before.triggers[k].intent == id;
    assert db.triggers[k].intent == id;
    HasTriggerIsCounted(db.triggers, id);
  }

  // ---------------------------------------------------------------- when terminal is final

  ghost predicate Terminal(w: World, id: IntentId) {
    id in w.db.rows && !IsLive(w.db.rows[id].status)
  }

  /** No cancellation of the intent stands between its read and its write. */
  ghost predicate NoOpenCancel(w: World, id: IntentId) {
    id !in w.cancelling
  }

  /** The intent ends these steps in the terminal status it has. */
  ghost predicate Survives(w: World, steps: seq<Step>, id: IntentId)
    requires id in w.db.rows
  {
    Terminal(Run(w, steps), id) && Run(w, steps).db.rows[id].status == w.db.rows[id].status
  }

  ghost predicate Settled(w: World, id: IntentId) {
    Terminal(w, id) && (NoOpenCancel(w, id) || w.db.rows[id].status.Cancelled?)
  }

  /** Every statement but a cancellation's leaves a terminal status as it is. */
  lemma StatementKeepsTerminal(w: World, s: Step, id: IntentId)
    requires Terminal(w, id) && !s.BeginCancel? && !s.FinishCancel?
    ensures Next(w, s).cancelling == w.cancelling
    ensures id in Next(w, s).db.rows && Next(w, s).db.rows[id].status == w.db.rows[id].status
  {
    hide HasTrigger;
  }

  lemma StepKeepsSettled(w: World, s: Step, id: IntentId)
    requires Settled(w, id)
    ensures Settled(Next(w, s), id) && Next(w, s).db.rows[id].status == w.db.rows[id].status
  {
    if s.BeginCancel? || s.FinishCancel? {
      hide HasTrigger;
    } else {
      hide Next;
      StatementKeepsTerminal(w, s, id);
    }
  }

  lemma {:induction false} SettledSurvives(w: World, steps: seq<Step>, id: IntentId)
    requires Settled(w, id)
    ensures Survives(w, steps, id)
    decreases |steps|
  {
    hide Next;
    if steps != [] {
      StepKeepsSettled(w, steps[0], id);
      SettledSurvives(Next(w, steps[0]), steps[1..], id);
    }
  }

  /** The write of a half-done cancellation, run next, replaces any other terminal status. */
  lemma OpenCancelOverwrites(w: World, id: IntentId)
    requires Terminal(w, id) && !Settled(w, id)
    ensures !Survives(w, [FinishCancel(id)], id)
  {
    var race := [FinishCancel(id)];
    assert race[1..] == [];
    assert Run(w, race) == Next(w, FinishCancel(id));
  }

  /**
   A terminal status survives every continuation exactly when no cancellation of that
   intent is half done, or the status is the one the cancellation would write anyway.
   */
  lemma TerminalIsFinalExactlyWithoutOpenCancel(w: World, id: IntentId)
    requires Terminal(w, id)
    ensures (forall steps :: Survives(w, steps, id)) <==> NoOpenCancel(w, id) || w.db.rows[id].status.Cancelled?
  {
    hide Survives;
    if Settled(w, id) {
      forall steps
        ensures Survives(w, steps, id)
      {
        SettledSurvives(w, steps, id);
      }
    } else {
      OpenCancelOverwrites(w, id);
    }
  }

  const RACER := Intent(7, "2330", Price.Stock, MarketBuy, 1, SingleNotification, None, None, 0, Active, None, None)

  const RACE_ROW := TriggerRow(1, 600.0, Ask, false, 600.0, 1, None, None, 0, 0)

  const RACE := [Insert(1, RACER), BeginCancel(1, 7), TriggerStep(RACE_ROW, MarketOrderTriggered)]

  /** The table before and after the late write of the cancellation. */
  function RaceTable(s: Status): Db {
    Db(map[1 := RACER.(status := s)], [RACE_ROW], [Note(MarketOrderTriggered, 1)])
  }

  lemma TriggerWinsFirst()
    ensures Run(START, RACE) == World(RaceTable(Triggered), multiset{1})
  {
    hide Run;
    var w1 := World(Db(map[1 := RACER], [], []), multiset{});
    var w2 := w1.(cancelling := multiset{1});
    assert Next(START, RACE[0]) == w1;
    assert Next(w1, RACE[1]) == w2;
    assert Next(w2, RACE[2]) == World(RaceTable(Triggered), multiset{1});
    RunOfThree(START, RACE[0], RACE[1], RACE[2]);
  }

  lemma CancelWritesLast()
    ensures Next(World(RaceTable(Triggered), multiset{1}), FinishCancel(1)) == World(RaceTable(Cancelled), multiset{})
  {
  }

  /** A reachable race: the trigger lands between a cancellation's read and its write. */
  lemma CancelCanOverwriteTrigger()
    ensures exists steps, id ::
              var early, late := Run(START, steps), Run(START, steps + [FinishCancel(id)]);
              && Terminal(early, id) && early.db.rows[id].status.Triggered?
              && Terminal(late, id) && late.db.rows[id].status.Cancelled?
              && HasTrigger(late.db.triggers, id)
  {
    hide Next;
    var last := FinishCancel(1);
    TriggerWinsFirst();
    CancelWritesLast();
    RunSplits(START, RACE, [last]);
    assert [last][1..] == [];
    assert Run(START, RACE + [last]) == World(RaceTable(Cancelled), multiset{});
    assert RaceTable(Cancelled).triggers[0].intent == 1;
  }

  lemma RunOfThree(w: World, a: Step, b: Step, c: Step)
    ensures Run(w, [a, b, c]) == Next(Next(Next(w, a), b), c)
  {
    hide Next;
    assert [a, b, c][1..] == [b, c] && [b, c][1..] == [c] && [c][1..] == [];
    var w1 := Next(w, a);
    var w2 := Next(w1, b);
    assert Run(w2, [c]) == Run(Next(w2, c), []);
    assert Run(w1, [b, c]) == Run(w2, [c]);
  }
}
