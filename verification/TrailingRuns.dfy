/**
 The trailing stop over whole runs of the table: what is stored for a trailing intent, and
 when it triggers, against every quote evaluated for it since it was created.
 */
module TrailingRuns {
  import opened Outcomes
  import opened Price
  import opened TradingSession
  import opened Intents
  import opened QuoteEvaluation
  import opened IntentStore
  import opened IntentProtocol
  import Runs = IntentRuns

  // ---------------------------------------------------------------- the quotes an intent sees

  /** Inline when it is created, and with each quote on its symbol dispatched while it is active. */
  ghost function TicksOf(s: Runs.Site, limits: Limits, c: Runs.Command, id: IntentId): seq<Tick>
    requires Runs.Enabled(s, c)
  {
    match c
    case CreateCommand(created, inp, security, now, subscribed, halted, quote) =>
      if created == id && Created(s.db, id, inp, security, limits, now, subscribed, halted, quote).Ok?
         && StartsActive(now) && !halted && quote.Some?
      then [Tick(quote.value, now)] else []
    case DispatchCommand(q, now, later, halted, _) =>
      if !halted && Receives(LifecycleRun(s.db, later), q, id) then [Tick(q, now)] else []
    case _ => []
  }

  ghost predicate Receives(db: Db, q: Quote, id: IntentId) {
    id in db.rows && db.rows[id].status.Active? && db.rows[id].symbol == q.symbol
  }

  ghost function Ticks(s: Runs.Site, limits: Limits, commands: seq<Runs.Command>, id: IntentId): seq<Tick>
    decreases |commands|
  {
    if commands == [] || !Runs.Enabled(s, commands[0]) then []
    else TicksOf(s, limits, commands[0], id) + Ticks(Runs.Execute(s, limits, commands[0]), limits, commands[1..], id)
  }

  ghost function TriggersOf(triggers: seq<TriggerRow>, id: IntentId): seq<TriggerRow> {
    if triggers == [] then []
    else
      var last := triggers[|triggers| - 1];
      TriggersOf(triggers[..|triggers| - 1], id) + if last.intent == id then [last] else []
  }

  lemma TriggersOfAppended(triggers: seq<TriggerRow>, t: TriggerRow, id: IntentId)
    ensures TriggersOf(triggers + [t], id) == TriggersOf(triggers, id) + if t.intent == id then [t] else []
  {
    assert (triggers + [t])[..|triggers|] == triggers;
  }

  lemma {:induction false} TriggersOfHas(triggers: seq<TriggerRow>, id: IntentId)
    ensures TriggersOf(triggers, id) != [] <==> HasTrigger(triggers, id)
    ensures forall t :: t in TriggersOf(triggers, id) <==> t in triggers && t.intent == id
  {
    if triggers != [] {
      var n := |triggers| - 1;
      TriggersOfHas(triggers[..n], id);
      assert triggers == triggers[..n] + [triggers[n]];
      assert HasTrigger(triggers, id) <==> HasTrigger(triggers[..n], id) || triggers[n].intent == id by {
        if HasTrigger(triggers, id) && triggers[n].intent != id {
          var k :| 0 <= k < |triggers| && triggers[k].intent == id;
          assert triggers[..n][k].intent == id;
        }
        if HasTrigger(triggers[..n], id) {
          var k :| 0 <= k < n && triggers[..n][k].intent == id;
          assert triggers[k].intent == id;
        }
      }
    }
  }

  // ---------------------------------------------------------------- what is kept

  /** The trigger row is of this tick, and shows what the intent then held. */
  ghost predicate Records(t: TriggerRow, i: Intent, tick: Tick) {
    && t.at == tick.now && t.quoteTime == tick.quote.quoteTime
    && WatchedPrice(i.strategy, tick.quote) == Some(t.price)
    && t.baseline == i.baseline && t.stop == i.stop
  }

  /** The last tick, if any, stops the trail out. */
  ghost predicate StoppedOut(i: Intent, trail: Trail, past: seq<Tick>) {
    past != [] && StopsOut(i.security, trail, past, |past| - 1)
  }

  /** No tick but the last has stopped the trail out. */
  ghost predicate QuietSoFar(i: Intent, trail: Trail, past: seq<Tick>) {
    forall k :: 0 <= k < |past| - 1 ==> !StopsOut(i.security, trail, past, k)
  }

  /** A trailing intent against the ticks it has seen and the trigger rows it has. */
  ghost predicate Follows(i: Intent, mine: seq<TriggerRow>, past: seq<Tick>) {
    i.strategy.TrailingStop? ==>
      && i.trail.Some? && Tracks(i, i.trail.value, past) && QuietSoFar(i, i.trail.value, past)
      && (StoppedOut(i, i.trail.value, past) <==> mine != [])
      && (mine != [] ==> |mine| == 1 && past != [] && Records(mine[0], i, past[|past| - 1]))
  }

  ghost predicate History(db: Db, id: IntentId, past: seq<Tick>) {
    if id in db.rows then Follows(db.rows[id], TriggersOf(db.triggers, id), past)
    else past == [] && TriggersOf(db.triggers, id) == []
  }

  /** Nothing the history speaks of has changed. */
  ghost predicate SameForTrail(a: Db, b: Db, id: IntentId) {
    && (id in a.rows <==> id in b.rows)
    && (id in a.rows ==> b.rows[id] == a.rows[id].(status := b.rows[id].status))
    && TriggersOf(b.triggers, id) == TriggersOf(a.triggers, id)
  }

  lemma SameKeepsHistory(a: Db, b: Db, id: IntentId, past: seq<Tick>)
    requires History(a, id, past) && SameForTrail(a, b, id)
    ensures History(b, id, past)
  {
    hide StopsOut, IsHighest, StopAt, TriggersOf;
  }

  // ---------------------------------------------------------------- one turn

  /** The row an evaluation leaves. */
  ghost function Judged(i: Intent, e: Evaluation): Intent {
    WithBaseline(i, e).(status := if e.shouldTrigger then Triggered else i.status)
  }

  /** The trigger rows it adds. */
  ghost function Fired(id: IntentId, i: Intent, e: Evaluation, q: Quote, now: Instant): seq<TriggerRow> {
    var row := TriggerRowFor(id, WithBaseline(i, e), e, q, now);
    if e.shouldTrigger && row.Ok? then [row.value] else []
  }

  /** The notification it sends. */
  ghost function Noted(id: IntentId, i: Intent, e: Evaluation): seq<Note> {
    if e.shouldTrigger then [Note(NoteKindOf(i.strategy), id)] else []
  }

  lemma TurnEffect(db: Db, limits: Limits, clock: Instant, q: Quote, now: Instant, l: Listed)
    requires Runs.Invariant(db, limits, clock) && l.id in db.rows && db.rows[l.id] == l.intent && l.intent.status.Active?
    requires InSession(now) ==> DayOf(now) == l.intent.tradingDate
    ensures var after := Processed(db, q, now, l);
            var e := Evaluate(q, l.intent, now);
            && after.Ok?
            && after.value.rows == db.rows[l.id := Judged(l.intent, e)]
            && after.value.triggers == db.triggers + Fired(l.id, l.intent, e, q, now)
            && after.value.notes == db.notes + Noted(l.id, l.intent, e)
            && (e.shouldTrigger ==> TriggerRowFor(l.id, WithBaseline(l.intent, e), e, q, now).Ok?)
  {
    hide Evaluate, TriggerRowFor, Runs.RowsFit, Runs.TriggersFit, Runs.Distinct, Runs.Capped, Sound, Runs.WellFormed, Runs.Justified;
    var e := Evaluate(q, l.intent, now);
    Runs.TurnKeepsInvariant(db, limits, clock, q, now, l);
    assert Runs.WellFormed(l.intent) by { RowIsWellFormed(db, clock, l.id); }
    Runs.EvaluationIsRecordable(l.id, l.intent, q, now);
    ActiveHasNoTrigger(db, l.id);
    assert db.rows[l.id := l.intent] == db.rows;
    if e.shouldTrigger {
      RowIsOfIntent(l.id, WithBaseline(l.intent, e), e, q, now);
    }
  }

  lemma RowIsWellFormed(db: Db, clock: Instant, id: IntentId)
    requires Runs.RowsFit(db, clock) && id in db.rows
    ensures Runs.WellFormed(db.rows[id])
  {
  }

  lemma RowIsOfIntent(id: IntentId, i: Intent, e: Evaluation, q: Quote, now: Instant)
    requires TriggerRowFor(id, i, e, q, now).Ok?
    ensures TriggerRowFor(id, i, e, q, now).value.intent == id
  {
  }

  /** A trailing trigger records the tick it was evaluated on. */
  lemma TrailingRowRecords(id: IntentId, i: Intent, q: Quote, now: Instant)
    requires i.strategy.TrailingStop? && Evaluate(q, i, now).shouldTrigger
    requires TriggerRowFor(id, WithBaseline(i, Evaluate(q, i, now)), Evaluate(q, i, now), q, now).Ok?
    ensures var e := Evaluate(q, i, now);
            Records(TriggerRowFor(id, WithBaseline(i, e), e, q, now).value, Judged(i, e), Tick(q, now))
  {
    hide Evaluate;
    TriggersExactlyOnCondition(q, i, now);
  }

  /** One more tick for an intent that has not stopped out. */
  lemma TickExtends(id: IntentId, i: Intent, past: seq<Tick>, t: Tick)
    requires Follows(i, [], past)
    requires var e := Evaluate(t.quote, i, t.now);
             e.shouldTrigger ==> TriggerRowFor(id, WithBaseline(i, e), e, t.quote, t.now).Ok?
    ensures var e := Evaluate(t.quote, i, t.now);
            Follows(Judged(i, e), Fired(id, i, e, t.quote, t.now), past + [t])
  {
    hide Evaluate, StopsOut, IsHighest, StopAt, TriggerRowFor, Records;
    if i.strategy.TrailingStop? {
      var trail, e := i.trail.value, Evaluate(t.quote, i, t.now);
      var next := Judged(i, e);
      StepTracksHistory(i, trail, past, t);
      forall k | 0 <= k < |past|
        ensures !StopsOut(i.security, trail, past + [t], k)
      {
        StopsOutOfPrefix(i.security, trail, past, [t], k);
        assert k == |past| - 1 ==> !StoppedOut(i, trail, past);
      }
      assert Tracks(next, trail, past + [t]);
      if e.shouldTrigger {
        TrailingRowRecords(id, i, t.quote, t.now);
        assert (past + [t])[|past|] == t;
      }
    }
  }

  // ---------------------------------------------------------------- a dispatch

  ghost predicate Lists(listed: seq<Listed>, id: IntentId) {
    exists k :: 0 <= k < |listed| && listed[k].id == id
  }

  lemma TurnElsewhere(db: Db, limits: Limits, clock: Instant, q: Quote, now: Instant, l: Listed, id: IntentId)
    requires Runs.Invariant(db, limits, clock) && l.id in db.rows && db.rows[l.id] == l.intent && l.intent.status.Active?
    requires InSession(now) ==> DayOf(now) == l.intent.tradingDate
    requires id != l.id
    ensures Processed(db, q, now, l).Ok? && SameForTrail(db, Processed(db, q, now, l).value, id)
  {
    hide Evaluate, Processed, Runs.Invariant, TriggerRowFor, TriggersOf;
    var e := Evaluate(q, l.intent, now);
    TurnEffect(db, limits, clock, q, now, l);
    assert db.triggers + [] == db.triggers;
    if e.shouldTrigger {
      RowIsOfIntent(l.id, WithBaseline(l.intent, e), e, q, now);
      var row := TriggerRowFor(l.id, WithBaseline(l.intent, e), e, q, now).value;
      assert row.intent == l.id;
      TriggersOfAppended(db.triggers, row, id);
    }
  }

  lemma TurnHere(db: Db, limits: Limits, clock: Instant, q: Quote, now: Instant, l: Listed, past: seq<Tick>)
    requires Runs.Invariant(db, limits, clock) && l.id in db.rows && db.rows[l.id] == l.intent && l.intent.status.Active?
    requires InSession(now) ==> DayOf(now) == l.intent.tradingDate
    requires History(db, l.id, past)
    ensures Processed(db, q, now, l).Ok? && History(Processed(db, q, now, l).value, l.id, past + [Tick(q, now)])
  {
    hide Evaluate, Processed, Runs.Invariant, TriggerRowFor, TriggersOf, Follows;
    var e := Evaluate(q, l.intent, now);
    TurnEffect(db, limits, clock, q, now, l);
    assert db.triggers + [] == db.triggers;
    ActiveHasNone(db, limits, clock, l.id);
    TickExtends(l.id, l.intent, past, Tick(q, now));
    if e.shouldTrigger {
      RowIsOfIntent(l.id, WithBaseline(l.intent, e), e, q, now);
      var row := TriggerRowFor(l.id, WithBaseline(l.intent, e), e, q, now).value;
      TriggersOfAppended(db.triggers, row, l.id);
      assert TriggersOf(db.triggers + [row], l.id) == [row];
    }
  }

  lemma ActiveHasNone(db: Db, limits: Limits, clock: Instant, id: IntentId)
    requires Runs.Invariant(db, limits, clock) && id in db.rows && IsLive(db.rows[id].status)
    ensures TriggersOf(db.triggers, id) == []
  {
    hide Sound, Runs.RowsFit, Runs.TriggersFit, Runs.Distinct, Runs.Capped;
    ActiveHasNoTrigger(db, id);
    TriggersOfHas(db.triggers, id);
  }

  ghost predicate OfToday(listed: seq<Listed>, now: Instant) {
    InSession(now) ==> forall k :: 0 <= k < |listed| ==> listed[k].intent.tradingDate == DayOf(now)
  }

  lemma RestIsListed(db: Db, limits: Limits, clock: Instant, q: Quote, now: Instant, listed: seq<Listed>)
    requires Runs.Invariant(db, limits, clock) && Runs.StillListed(db, listed) && OfToday(listed, now) && listed != []
    ensures var after := Processed(db, q, now, listed[0]);
            && after.Ok? && Runs.Invariant(after.value, limits, clock)
            && Runs.StillListed(after.value, listed[1..]) && OfToday(listed[1..], now)
    ensures !Lists(listed[1..], listed[0].id)
    ensures forall id :: id != listed[0].id ==> (Lists(listed, id) <==> Lists(listed[1..], id))
  {
    hide Runs.Invariant, Evaluate, Processed;
    var l, rest := listed[0], listed[1..];
    Runs.TurnKeepsInvariant(db, limits, clock, q, now, l);
    assert forall k :: 0 <= k < |rest| ==> rest[k] == listed[k + 1];
    assert forall k :: 1 <= k < |listed| ==> listed[k] == rest[k - 1];
  }

  /** The loop gives each listed intent its one tick, and leaves every other history alone. */
  lemma {:induction false} LoopKeepsHistory(db: Db, limits: Limits, clock: Instant, q: Quote, now: Instant,
                                            listed: seq<Listed>, id: IntentId, past: seq<Tick>)
    requires Runs.Invariant(db, limits, clock) && Runs.StillListed(db, listed) && OfToday(listed, now)
    requires History(db, id, past)
    ensures ProcessedAll(db, q, now, listed).Ok?
    ensures History(ProcessedAll(db, q, now, listed).value, id, past + if Lists(listed, id) then [Tick(q, now)] else [])
    decreases |listed|
  {
    hide Runs.Invariant, Processed, History, OfToday, Runs.StillListed;
    if listed == [] {
      assert past + [] == past;
    } else {
      var l := listed[0];
      FirstIsListed(db, listed, now);
      RestIsListed(db, limits, clock, q, now, listed);
      var after := Processed(db, q, now, l).value;
      if l.id == id {
        TurnHere(db, limits, clock, q, now, l, past);
        LoopKeepsHistory(after, limits, clock, q, now, listed[1..], id, past + [Tick(q, now)]);
        assert past + [Tick(q, now)] + [] == past + [Tick(q, now)];
        assert Lists(listed, id);
      } else {
        TurnElsewhere(db, limits, clock, q, now, l, id);
        SameKeepsHistory(db, after, id, past);
        LoopKeepsHistory(after, limits, clock, q, now, listed[1..], id, past);
      }
    }
  }

  lemma FirstIsListed(db: Db, listed: seq<Listed>, now: Instant)
    requires Runs.StillListed(db, listed) && OfToday(listed, now) && listed != []
    ensures listed[0].id in db.rows && db.rows[listed[0].id] == listed[0].intent && listed[0].intent.status.Active?
    ensures InSession(now) ==> DayOf(now) == listed[0].intent.tradingDate
  {
  }

  lemma LifecycleIsSame(db: Db, now: Instant, id: IntentId)
    ensures SameForTrail(db, LifecycleRun(db, now), id)
  {
  }

  lemma ListingIsExact(db: Db, q: Quote, listed: seq<Listed>, id: IntentId)
    requires IsListing(db, q.symbol, listed)
    ensures Lists(listed, id) <==> Receives(db, q, id)
    ensures Runs.StillListed(db, listed)
  {
  }

  lemma DispatchKeepsHistory(s: Runs.Site, limits: Limits, c: Runs.Command, id: IntentId, past: seq<Tick>)
    requires Runs.Invariant(s.db, limits, s.clock) && Runs.Enabled(s, c) && c.DispatchCommand? && History(s.db, id, past)
    ensures History(Runs.Execute(s, limits, c).db, id, past + TicksOf(s, limits, c, id))
  {
    hide Runs.Invariant, History, ProcessedAll, LifecycleRun, IsListing, Runs.StillListed;
    if c.halted {
      assert past + [] == past;
    } else {
      var ready := LifecycleRun(s.db, c.later);
      LifecycleIsSame(s.db, c.later, id);
      SameKeepsHistory(s.db, ready, id, past);
      Runs.LifecycleKeepsInvariant(s.db, limits, s.clock, c.later);
      ListingIsExact(ready, c.snapshot, c.listed, id);
      AllOfToday(s, limits, c);
      LoopKeepsHistory(ready, limits, c.later, c.snapshot, c.now, c.listed, id, past);
    }
  }

  lemma AllOfToday(s: Runs.Site, limits: Limits, c: Runs.Command)
    requires Runs.Invariant(s.db, limits, s.clock) && Runs.Enabled(s, c) && c.DispatchCommand? && !c.halted
    ensures OfToday(c.listed, c.now)
  {
    hide Runs.Invariant, LifecycleRun;
    if InSession(c.now) {
      forall k | 0 <= k < |c.listed|
        ensures c.listed[k].intent.tradingDate == DayOf(c.now)
      {
        Runs.LifecycleKeys(s.db, c.later);
        Runs.ListedAreToday(s.db, limits, s.clock, c.now, c.later, c.listed[k].id);
      }
    }
  }

  // ---------------------------------------------------------------- creation

  lemma NewIntentHasNoHistory(inp: CreateInput, security: SecurityType, now: Instant)
    requires CheckParameters(inp, security).Ok?
    ensures Follows(NewIntent(inp, security, now), [], [])
  {
    hide TradingDate, StartsActive, Validate;
  }

  lemma InsertStartsHistory(db: Db, id: IntentId, i: Intent, other: IntentId, past: seq<Tick>)
    requires id !in db.rows && History(db, other, past) && Follows(i, [], [])
    ensures History(Inserted(db, id, i), other, past)
  {
    hide Follows, TriggersOf;
  }

  /** What a creation that goes through consists of. */
  lemma CreateSteps(s: Runs.Site, limits: Limits, c: Runs.Command)
    requires Runs.Invariant(s.db, limits, s.clock) && Runs.Enabled(s, c) && c.CreateCommand?
    requires Created(s.db, c.id, c.inp, c.security, limits, c.now, c.subscribed, c.halted, c.quote).Ok?
    ensures c.security.Some? && CheckParameters(c.inp, c.security.value).Ok?
    ensures var i := NewIntent(c.inp, c.security.value, c.now);
            var inserted := Inserted(s.db, c.id, i);
            var after := Created(s.db, c.id, c.inp, c.security, limits, c.now, c.subscribed, c.halted, c.quote).value;
            && Runs.Invariant(inserted, limits, c.now)
            && (StartsActive(c.now) ==> i.status.Active?) && (InSession(c.now) ==> i.tradingDate == DayOf(c.now))
            && (if StartsActive(c.now) && !c.halted && c.quote.Some?
                then Processed(inserted, c.quote.value, c.now, Listed(c.id, i)) == Ok(after) else after == inserted)
  {
    hide CheckParameters, ClashesInDb, PassesChecks, NewIntent, Processed, LiveOf, LiveOn, InSession, Runs.Invariant, Runs.WellFormed, Runs.Started;
    var i := NewIntent(c.inp, c.security.value, c.now);
    Runs.NewIntentOwner(c.inp, c.security.value, c.now);
    Runs.NewIntentFits(c.inp, c.security.value, c.now);
    Runs.InsertKeepsInvariant(s.db, limits, s.clock, c.now, c.id, i);
  }

  lemma CreateKeepsHistory(s: Runs.Site, limits: Limits, c: Runs.Command, id: IntentId, past: seq<Tick>)
    requires Runs.Invariant(s.db, limits, s.clock) && Runs.Enabled(s, c) && c.CreateCommand? && History(s.db, id, past)
    ensures History(Runs.Execute(s, limits, c).db, id, past + TicksOf(s, limits, c, id))
  {
    hide Runs.Invariant, Created, NewIntent, Processed, CheckParameters, StartsActive, InSession, Follows, TriggersOf;
    assert past + [] == past;
    var r := Created(s.db, c.id, c.inp, c.security, limits, c.now, c.subscribed, c.halted, c.quote);
    if r.Ok? {
      CreateSteps(s, limits, c);
      var i := NewIntent(c.inp, c.security.value, c.now);
      var inserted := Inserted(s.db, c.id, i);
      NewIntentHasNoHistory(c.inp, c.security.value, c.now);
      InsertStartsHistory(s.db, c.id, i, id, past);
      if StartsActive(c.now) && !c.halted && c.quote.Some? {
        if id == c.id {
          TurnHere(inserted, limits, c.now, c.quote.value, c.now, Listed(c.id, i), past);
        } else {
          TurnElsewhere(inserted, limits, c.now, c.quote.value, c.now, Listed(c.id, i), id);
          SameKeepsHistory(inserted, r.value, id, past);
        }
      }
    }
  }

  // ---------------------------------------------------------------- every run

  lemma QuietCommandIsSame(s: Runs.Site, limits: Limits, c: Runs.Command, id: IntentId)
    requires Runs.Enabled(s, c) && (c.CancelCommand? || c.LifecycleCommand? || c.DisableCommand?)
    ensures SameForTrail(s.db, Runs.Execute(s, limits, c).db, id) && TicksOf(s, limits, c, id) == []
  {
    hide TriggersOf, ExpiryCutoff, PhaseAt, DayOf;
  }

  lemma CommandKeepsHistory(s: Runs.Site, limits: Limits, c: Runs.Command, id: IntentId, past: seq<Tick>)
    requires Runs.Invariant(s.db, limits, s.clock) && Runs.Enabled(s, c) && History(s.db, id, past)
    ensures History(Runs.Execute(s, limits, c).db, id, past + TicksOf(s, limits, c, id))
  {
    hide Runs.Invariant, History, Runs.Execute, TicksOf;
    if c.CreateCommand? {
      CreateKeepsHistory(s, limits, c, id, past);
    } else if c.DispatchCommand? {
      DispatchKeepsHistory(s, limits, c, id, past);
    } else {
      QuietCommandIsSame(s, limits, c, id);
      SameKeepsHistory(s.db, Runs.Execute(s, limits, c).db, id, past);
      assert past + [] == past;
    }
  }

  lemma {:induction false} RunKeepsHistory(s: Runs.Site, limits: Limits, commands: seq<Runs.Command>, t: Runs.Site,
                                           id: IntentId, past: seq<Tick>)
    requires Runs.Invariant(s.db, limits, s.clock) && Runs.Reaches(s, limits, commands, t) && History(s.db, id, past)
    ensures History(t.db, id, past + Ticks(s, limits, commands, id))
    decreases |commands|
  {
    hide Runs.Invariant, History, Runs.Execute, Runs.Enabled, TicksOf;
    if commands == [] {
      assert past + [] == past;
    } else {
      var first := TicksOf(s, limits, commands[0], id);
      var next := Runs.Execute(s, limits, commands[0]);
      Runs.CommandKeepsInvariant(s, limits, commands[0]);
      CommandKeepsHistory(s, limits, commands[0], id, past);
      RunKeepsHistory(next, limits, commands[1..], t, id, past + first);
      assert past + first + Ticks(next, limits, commands[1..], id) == past + (first + Ticks(next, limits, commands[1..], id));
    }
  }

  /** What the history says of a trailing intent, in terms of all its ticks. */
  lemma HistoryIsExact(db: Db, id: IntentId, past: seq<Tick>)
    requires History(db, id, past) && id in db.rows && db.rows[id].strategy.TrailingStop?
    ensures var i := db.rows[id];
            && i.trail.Some? && IsHighest(i.baseline, past) && i.stop == StopAt(i.security, i.trail.value, i.baseline)
            && (HasTrigger(db.triggers, id) <==> exists k :: 0 <= k < |past| && StopsOut(i.security, i.trail.value, past, k))
            && (forall k :: 0 <= k < |past| && StopsOut(i.security, i.trail.value, past, k) ==> k == |past| - 1)
  {
    hide StopsOut, IsHighest, StopAt, Records, TriggersOf, HasTrigger;
    TriggersOfHas(db.triggers, id);
    var i := db.rows[id];
    if HasTrigger(db.triggers, id) {
      assert StopsOut(i.security, i.trail.value, past, |past| - 1);
    }
  }

  lemma TriggersAreRecorded(db: Db, id: IntentId, past: seq<Tick>, n: nat)
    requires History(db, id, past) && id in db.rows && db.rows[id].strategy.TrailingStop?
    requires n < |db.triggers| && db.triggers[n].intent == id
    ensures past != [] && Records(db.triggers[n], db.rows[id], past[|past| - 1])
  {
    hide StopsOut, IsHighest, StopAt, Records, TriggersOf, HasTrigger;
    TriggersOfHas(db.triggers, id);
    assert db.triggers[n] in TriggersOf(db.triggers, id);
  }

  /**
   In every run, for every trailing intent: its stored baseline is the highest price offered
   by the quotes evaluated for it since it was created, and its stop the greatest legal price
   far enough below that. It has a trigger row if and only if one of those quotes stopped out against all
   before it; that quote was the last it saw and the first to stop out, and the row records
   it.
   */
  lemma TrailingRowsFollowTheirQuotes(limits: Limits, start: Instant, commands: seq<Runs.Command>, t: Runs.Site, id: IntentId)
    requires Runs.Reaches(Runs.Site(EmptyDb(), start), limits, commands, t)
    requires id in t.db.rows && t.db.rows[id].strategy.TrailingStop?
    ensures var i, past := t.db.rows[id], Ticks(Runs.Site(EmptyDb(), start), limits, commands, id);
            && i.trail.Some? && IsHighest(i.baseline, past) && i.stop == StopAt(i.security, i.trail.value, i.baseline)
            && (i.stop.Some? <==> i.baseline.Some?)
            && (i.stop.Some? ==> IsStopFor(i.security, i.trail.value, i.baseline.value, i.stop.value))
            && (HasTrigger(t.db.triggers, id) <==> exists k :: 0 <= k < |past| && StopsOut(i.security, i.trail.value, past, k))
            && (forall k :: 0 <= k < |past| && StopsOut(i.security, i.trail.value, past, k) ==> k == |past| - 1)
            && (forall n :: 0 <= n < |t.db.triggers| && t.db.triggers[n].intent == id ==>
                  past != [] && Records(t.db.triggers[n], i, past[|past| - 1]))
  {
    hide StopsOut, IsHighest, StopAt, IsStopFor, Records, Runs.Reaches, Runs.Invariant, History, HasTrigger, Ticks;
    var s := Runs.Site(EmptyDb(), start);
    var past := Ticks(s, limits, commands, id);
    assert History(t.db, id, past) by {
      EmptyRun(s, limits);
      Runs.EveryRunKeepsInvariant(limits, start, [], s);
      EmptyHistory(id);
      RunKeepsHistory(s, limits, commands, t, id, []);
      assert [] + past == past;
    }
    HistoryIsExact(t.db, id, past);
    StoredStopIsRight(t.db.rows[id]);
    forall n | 0 <= n < |t.db.triggers| && t.db.triggers[n].intent == id
      ensures past != [] && Records(t.db.triggers[n], t.db.rows[id], past[|past| - 1])
    {
      TriggersAreRecorded(t.db, id, past, n);
    }
  }

  lemma StoredStopIsRight(i: Intent)
    requires i.trail.Some? && i.stop == StopAt(i.security, i.trail.value, i.baseline)
    ensures i.stop.Some? <==> i.baseline.Some?
    ensures i.stop.Some? ==> IsStopFor(i.security, i.trail.value, i.baseline.value, i.stop.value)
  {
    hide IsStopFor, StopBelow;
    if i.baseline.Some? {
      StopIsGreatestFarEnough(i.security, i.trail.value, i.baseline.value);
    }
  }

  lemma EmptyHistory(id: IntentId)
    ensures History(EmptyDb(), id, [])
  {
  }

  lemma EmptyRun(s: Runs.Site, limits: Limits)
    ensures Runs.Reaches(s, limits, [], s)
  {
  }
}
