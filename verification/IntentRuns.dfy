/**
 Runs of whole commands against a clock that never goes back.

 Every command is one step.  A dispatch reads the clock twice, once for the evaluation
 and once more inside the lifecycle update that follows; the two readings may differ by
 less than the time from one session's close to the next one's opening.
 */
module IntentRuns {
  import opened Outcomes
  import opened DecimalText
  import opened Price
  import opened TradingSession
  import opened Intents
  import opened QuoteEvaluation
  import opened IntentStore
  import opened IntentProtocol

  // ---------------------------------------------------------------- the invariant

  /** Parameters fit the strategy, and a stored stop is the rounded trail of the baseline. */
  ghost predicate WellFormed(i: Intent) {
    && i.quantity > 0 && !i.strategy.TwapOrder? && IsTradingDay(i.tradingDate)
    && (if i.strategy.TrailingStop? then
          && i.target.None? && i.trail.Some? && ValidTrail(i.trail.value)
          && i.stop == StopAt(i.security, i.trail.value, i.baseline)
        else i.trail.None? && i.baseline.None? && i.stop.None?)
    && (IsMarket(i.strategy) ==> i.target.None?)
    && (BuysBelow(i.strategy) || SellsAbove(i.strategy) ==> i.target.Some? && Positive(i.target.value))
  }

  /** An active intent's session has opened. */
  ghost predicate Started(i: Intent, clock: Instant) {
    i.status.Active? ==> OpenOf(i.tradingDate) <= clock
  }

  /** A trigger row is of its intent's own session, and its price meets the condition. */
  ghost predicate Justified(t: TriggerRow, i: Intent) {
    && InSession(t.at) && DayOf(t.at) == i.tradingDate
    && InSession(t.quoteTime) && t.at - t.quoteTime <= FRESHNESS && DayOf(t.quoteTime) >= i.tradingDate
    && (DayOf(t.quoteTime) == i.tradingDate <==> t.quoteTime < MidnightAfter(i.tradingDate))
    && t.quantity == i.quantity && t.price > 0.0
    && (BuysBelow(i.strategy) ==> i.target.Some? && t.price <= t.target == Value(i.target.value))
    && (SellsAbove(i.strategy) ==> i.target.Some? && t.price >= t.target == Value(i.target.value))
    && (i.strategy.TrailingStop? ==>
          && i.trail.Some? && t.baseline.Some? && t.stop == Some(t.target)
          && t.price <= t.target == StopBelow(i.security, i.trail.value, t.baseline.value))
  }

  /** The same owner asking for the same thing, prices compared as numbers. */
  ghost predicate NumericallySame(a: Intent, b: Intent) {
    && a.owner == b.owner && a.symbol == b.symbol && a.strategy == b.strategy
    && a.quantity == b.quantity && a.tradingDate == b.tradingDate
    && a.target.Some? == b.target.Some? && (a.target.Some? ==> Value(a.target.value) == Value(b.target.value))
    && a.trail.Some? == b.trail.Some?
    && (a.trail.Some? ==> a.trail.value.mode == b.trail.value.mode
                          && Value(a.trail.value.value) == Value(b.trail.value.value))
  }

  ghost predicate RowsFit(db: Db, clock: Instant) {
    forall id :: id in db.rows ==> WellFormed(db.rows[id]) && Started(db.rows[id], clock)
  }

  ghost predicate TriggersFit(db: Db) {
    forall k :: 0 <= k < |db.triggers| ==>
      db.triggers[k].intent in db.rows && Justified(db.triggers[k], db.rows[db.triggers[k].intent])
  }

  ghost predicate Distinct(db: Db) {
    forall a, b :: a in db.rows && b in db.rows && a != b
                   && IsLive(db.rows[a].status) && IsLive(db.rows[b].status)
                   ==> !NumericallySame(db.rows[a], db.rows[b])
  }

  ghost predicate Capped(db: Db, limits: Limits) {
    limits.Limits? ==>
      && (forall owner :: |LiveOf(db, owner)| <= limits.perUser)
      && (forall owner, symbol :: |LiveOn(db, owner, symbol)| <= limits.perSymbol)
  }

  ghost predicate Invariant(db: Db, limits: Limits, clock: Instant) {
    Sound(db) && RowsFit(db, clock) && TriggersFit(db) && Distinct(db) && Capped(db, limits)
  }

  // ---------------------------------------------------------------- duplicates

  lemma PrefixCancels(p: Text, a: Text, b: Text)
    ensures p + a == p + b <==> a == b
  {
    if p + a == p + b {
      assert a == (p + a)[|p|..] && b == (p + b)[|p|..];
    }
  }

  /** Comparing keys is comparing numbers. */
  lemma ClashIsNumeric(a: Intent, b: Intent)
    requires WellFormed(a) && WellFormed(b)
    ensures Clashes(a, b) <==> NumericallySame(a, b)
  {
    hide FormatPrice, Value;
    if a.strategy == b.strategy {
      if a.strategy.TrailingStop? {
        var x, y := a.trail.value, b.trail.value;
        FormatIsCanonical(x.value, y.value);
        if x.mode == y.mode {
          PrefixCancels(ModeText(x.mode) + ":", FormatPrice(x.value), FormatPrice(y.value));
        } else {
          assert DedupKey(a)[0] != DedupKey(b)[0];
        }
      } else if !IsMarket(a.strategy) {
        FormatIsCanonical(a.target.value, b.target.value);
      }
    }
  }

  // ---------------------------------------------------------------- steps that only take away

  /** The same intents, none newly live, with the same requests. */
  ghost predicate Shrinks(before: Db, after: Db) {
    && after.rows.Keys == before.rows.Keys
    && (forall id :: id in before.rows ==>
          && SameRequest(before.rows[id], after.rows[id])
          && (IsLive(after.rows[id].status) ==> IsLive(before.rows[id].status)))
  }

  lemma SmallerSet(a: set<IntentId>, b: set<IntentId>)
    requires a <= b
    ensures |a| <= |b|
  {
    assert b == a + (b - a);
  }

  lemma ShrinksKeepsCounts(before: Db, after: Db, limits: Limits)
    requires Shrinks(before, after) && Distinct(before) && Capped(before, limits)
    ensures Distinct(after) && Capped(after, limits)
  {
    forall owner
      ensures limits.Limits? ==> |LiveOf(after, owner)| <= limits.perUser
    {
      SmallerSet(LiveOf(after, owner), LiveOf(before, owner));
    }
    forall owner, symbol
      ensures limits.Limits? ==> |LiveOn(after, owner, symbol)| <= limits.perSymbol
    {
      SmallerSet(LiveOn(after, owner, symbol), LiveOn(before, owner, symbol));
    }
  }

  /** Trigger rows stay justified, since the request they are judged by does not change. */
  lemma ShrinksKeepsTriggers(before: Db, after: Db)
    requires TriggersFit(before) && Shrinks(before, after) && after.triggers == before.triggers
    ensures TriggersFit(after)
  {
  }

  /** A quiet step on existing rows that changes only the status, activating in time. */
  lemma QuietKeepsInvariant(before: Db, after: Db, limits: Limits, early: Instant, late: Instant)
    requires Invariant(before, limits, early) && Quiet(before, after) && after.rows.Keys == before.rows.Keys
    requires forall id :: id in before.rows ==>
               && after.rows[id] == before.rows[id].(status := after.rows[id].status)
               && Started(after.rows[id], late)
    ensures Invariant(after, limits, late)
  {
    hide Sound, Capped, Distinct, TriggersFit;
    assert Shrinks(before, after);
    QuietKeepsSound(before, after);
    ShrinksKeepsCounts(before, after, limits);
    ShrinksKeepsTriggers(before, after);
  }

  lemma LifecycleKeepsInvariant(db: Db, limits: Limits, clock: Instant, now: Instant)
    requires Invariant(db, limits, clock) && clock <= now
    ensures Invariant(LifecycleRun(db, now), limits, now)
  {
    hide Sound, Capped, Distinct, TriggersFit, Quiet;
    var expired := ExpiredThrough(db, ExpiryCutoff(now));
    ExpireIsQuiet(db, ExpiryCutoff(now));
    QuietKeepsInvariant(db, expired, limits, clock, now);
    if PhaseAt(now).RegularSession? {
      assert OpenOf(DayOf(now)) <= now by { TradingDateFollowsCutoff(now); }
      ActivateIsQuiet(expired, DayOf(now));
      QuietKeepsInvariant(expired, ActivatedOn(expired, DayOf(now)), limits, now, now);
    }
  }

  /** After the lifecycle update, what is active can still trigger. */
  lemma LifecycleLeavesCurrent(db: Db, now: Instant, id: IntentId)
    requires id in db.rows && LifecycleRun(db, now).rows[id].status.Active?
    ensures db.rows[id].tradingDate > ExpiryCutoff(now)
  {
  }

  // ---------------------------------------------------------------- one quote, one intent

  /** Evaluation keeps an intent well formed and gives a trigger everything it records. */
  lemma EvaluationIsRecordable(id: IntentId, i: Intent, q: Quote, now: Instant)
    requires WellFormed(i)
    requires InSession(now) ==> DayOf(now) == i.tradingDate
    ensures var e := Evaluate(q, i, now);
            && WellFormed(WithBaseline(i, e))
            && (e.baselineUpdatedAt.Some? ==> i.trail.Some?)
            && (e.shouldTrigger ==>
                  && TriggerRowFor(id, WithBaseline(i, e), e, q, now).Ok?
                  && TriggerRowFor(id, WithBaseline(i, e), e, q, now).value.intent == id
                  && Justified(TriggerRowFor(id, WithBaseline(i, e), e, q, now).value, i))
  {
    hide StopBelow, Value;
    var e := Evaluate(q, i, now);
    TriggersExactlyOnCondition(q, i, now);
    if e.shouldTrigger {
      TriggeringQuoteIsCurrent(q, i, now);
    }
  }

  /** What one listed intent's turn leaves behind. */
  ghost predicate OneTurn(before: Db, after: Db, id: IntentId) {
    && Shrinks(before, after)
    && (forall other :: other in before.rows && other != id ==> after.rows[other] == before.rows[other])
  }

  lemma BaselineTurn(db: Db, limits: Limits, clock: Instant, id: IntentId, next: Intent)
    requires Invariant(db, limits, clock) && id in db.rows && db.rows[id].trail.Some? && WellFormed(next)
    requires next == db.rows[id].(baseline := next.baseline, stop := next.stop)
    ensures var after := BaselineWritten(db, id, next.baseline, next.stop);
            && after.Ok? && Invariant(after.value, limits, clock) && OneTurn(db, after.value, id)
            && after.value.rows[id] == next
  {
    hide Sound, Capped, Distinct, TriggersFit;
    var after := BaselineWritten(db, id, next.baseline, next.stop).value;
    BaselineIsQuiet(db, id, next.baseline, next.stop);
    assert Shrinks(db, after);
    QuietKeepsSound(db, after);
    ShrinksKeepsCounts(db, after, limits);
    ShrinksKeepsTriggers(db, after);
  }

  lemma TriggerAddedFits(before: Db, after: Db, row: TriggerRow)
    requires TriggersFit(before) && Shrinks(before, after) && after.triggers == before.triggers + [row]
    requires row.intent in before.rows && Justified(row, before.rows[row.intent])
    ensures TriggersFit(after)
  {
    hide Justified, SameRequest;
    JustifiedByRequest(row, before.rows[row.intent], after.rows[row.intent]);
    forall k | 0 <= k < |after.triggers|
      ensures after.triggers[k].intent in after.rows && Justified(after.triggers[k], after.rows[after.triggers[k].intent])
    {
      if k < |before.triggers| {
        var t := before.triggers[k];
        JustifiedByRequest(t, before.rows[t.intent], after.rows[t.intent]);
      }
    }
  }

  lemma TriggerTurn(db: Db, limits: Limits, clock: Instant, row: TriggerRow, kind: NoteKind)
    requires Invariant(db, limits, clock) && row.intent in db.rows && db.rows[row.intent].status.Active?
    requires Justified(row, db.rows[row.intent])
    ensures var after := Persisted(db, row, kind);
            && after.Ok? && Invariant(after.value, limits, clock) && OneTurn(db, after.value, row.intent)
            && after.value.rows[row.intent].status.Triggered?
            && after.value.triggers == db.triggers + [row]
  {
    hide Sound, Capped, Distinct, TriggersFit, Justified, HasTrigger;
    ActiveHasNoTrigger(db, row.intent);
    var after := Persisted(db, row, kind).value;
    PersistKeepsSound(db, row, kind);
    assert Shrinks(db, after);
    ShrinksKeepsCounts(db, after, limits);
    TriggerAddedFits(db, after, row);
  }

  lemma JustifiedByRequest(t: TriggerRow, a: Intent, b: Intent)
    requires Justified(t, a) && SameRequest(a, b)
    ensures Justified(t, b)
  {
  }

  /** In a command run no turn faults or is skipped: a quote that triggers is recorded. */
  lemma TurnKeepsInvariant(db: Db, limits: Limits, clock: Instant, q: Quote, now: Instant, l: Listed)
    requires Invariant(db, limits, clock) && l.id in db.rows && db.rows[l.id] == l.intent && l.intent.status.Active?
    requires InSession(now) ==> DayOf(now) == l.intent.tradingDate
    ensures var after := Processed(db, q, now, l);
            && after.Ok? && Invariant(after.value, limits, clock) && OneTurn(db, after.value, l.id)
            && (Evaluate(q, l.intent, now).shouldTrigger <==> after.value.rows[l.id].status.Triggered?)
            && (Evaluate(q, l.intent, now).shouldTrigger <==> |after.value.triggers| == |db.triggers| + 1)
  {
    hide Evaluate, BaselineWritten, Persisted, Sound, Capped, Distinct, TriggersFit, Justified, WellFormed, TriggerRowFor;
    var e := Evaluate(q, l.intent, now);
    var next := WithBaseline(l.intent, e);
    EvaluationIsRecordable(l.id, l.intent, q, now);
    var mid := db;
    if e.baselineUpdatedAt.Some? {
      BaselineTurn(db, limits, clock, l.id, next);
      mid := BaselineWritten(db, l.id, e.baseline, e.stop).value;
      assert mid.triggers == db.triggers by { BaselineLeavesTriggers(db, l.id, e.baseline, e.stop); }
    }
    if e.shouldTrigger {
      var row := TriggerRowFor(l.id, next, e, q, now).value;
      JustifiedByRequest(row, l.intent, next);
      TriggerTurn(mid, limits, clock, row, NoteKindOf(next.strategy));
    }
  }

  lemma BaselineLeavesTriggers(db: Db, id: IntentId, baseline: Option<real>, stop: Option<real>)
    requires BaselineWritten(db, id, baseline, stop).Ok?
    ensures BaselineWritten(db, id, baseline, stop).value.triggers == db.triggers
  {
  }

  // ---------------------------------------------------------------- one dispatch

  /** The part of a listing that is still to be processed. */
  ghost predicate StillListed(db: Db, listed: seq<Listed>) {
    && (forall k :: 0 <= k < |listed| ==>
          listed[k].id in db.rows && db.rows[listed[k].id] == listed[k].intent && listed[k].intent.status.Active?)
    && (forall j, k :: 0 <= j < k < |listed| ==> listed[j].id != listed[k].id)
  }

  lemma {:induction false} DispatchLoopKeepsInvariant(
      db: Db, limits: Limits, clock: Instant, q: Quote, now: Instant, listed: seq<Listed>)
    requires Invariant(db, limits, clock) && StillListed(db, listed)
    requires InSession(now) ==> forall k :: 0 <= k < |listed| ==> listed[k].intent.tradingDate == DayOf(now)
    ensures ProcessedAll(db, q, now, listed).Ok?
    ensures Invariant(ProcessedAll(db, q, now, listed).value, limits, clock)
    ensures forall id :: id in db.rows && (forall k :: 0 <= k < |listed| ==> listed[k].id != id) ==>
              id in ProcessedAll(db, q, now, listed).value.rows
              && ProcessedAll(db, q, now, listed).value.rows[id] == db.rows[id]
    ensures forall k :: 0 <= k < |listed| ==>
              && listed[k].id in ProcessedAll(db, q, now, listed).value.rows
              && (Evaluate(q, listed[k].intent, now).shouldTrigger <==>
                  ProcessedAll(db, q, now, listed).value.rows[listed[k].id].status.Triggered?)
    decreases |listed|
  {
    hide Invariant, Evaluate, Processed;
    if listed != [] {
      var l := listed[0];
      TurnKeepsInvariant(db, limits, clock, q, now, l);
      var after := Processed(db, q, now, l).value;
      var rest := listed[1..];
      assert StillListed(after, rest) by {
        forall k | 0 <= k < |rest|
          ensures rest[k].id in after.rows && after.rows[rest[k].id] == rest[k].intent
        {
          assert rest[k] == listed[k + 1] && rest[k].id != l.id;
        }
      }
      DispatchLoopKeepsInvariant(after, limits, clock, q, now, rest);
      var done := ProcessedAll(after, q, now, rest).value;
      assert done.rows[l.id] == after.rows[l.id] by {
        assert forall k :: 0 <= k < |rest| ==> rest[k] == listed[k + 1];
      }
      forall k | 0 <= k < |listed|
        ensures listed[k].id in done.rows
        ensures Evaluate(q, listed[k].intent, now).shouldTrigger <==> done.rows[listed[k].id].status.Triggered?
      {
        if k > 0 {
          assert listed[k] == rest[k - 1];
        }
      }
    }
  }

  /** Inside the session every active intent left by the lifecycle is dated today. */
  lemma ListedAreToday(db: Db, limits: Limits, clock: Instant, now: Instant, later: Instant, id: IntentId)
    requires Invariant(db, limits, clock) && clock <= now <= later < now + OVERNIGHT && InSession(now)
    requires id in db.rows && LifecycleRun(db, later).rows[id].status.Active?
    ensures LifecycleRun(db, later).rows[id].tradingDate == DayOf(now)
  {
    hide ExpiryCutoff, OpenOf, DayOf, InSession, PhaseAt, WellFormed, Sound, Capped, Distinct, TriggersFit;
    LifecycleKeepsInvariant(db, limits, clock, later);
    LifecycleLeavesCurrent(db, later, id);
    assert Started(LifecycleRun(db, later).rows[id], later);
    OpenAndUnexpiredIsToday(now, later, db.rows[id].tradingDate);
  }

  lemma DispatchKeepsInvariant(
      db: Db, limits: Limits, clock: Instant, q: Quote, now: Instant, later: Instant, halted: bool, listed: seq<Listed>)
    requires Invariant(db, limits, clock) && clock <= now <= later < now + OVERNIGHT
    requires !halted ==> IsListing(LifecycleRun(db, later), q.symbol, listed)
    ensures Invariant(Dispatched(db, q, now, later, halted, listed), limits, later)
    ensures !halted ==> ProcessedAll(LifecycleRun(db, later), q, now, listed).Ok?
    ensures !halted ==> forall k :: 0 <= k < |listed| ==>
              && listed[k].id in Dispatched(db, q, now, later, halted, listed).rows
              && (Evaluate(q, listed[k].intent, now).shouldTrigger <==>
                  Dispatched(db, q, now, later, halted, listed).rows[listed[k].id].status.Triggered?)
  {
    hide LifecycleRun, Evaluate, ProcessedAll;
    if halted {
      ClockAdvances(db, limits, clock, later);
    } else {
      LifecycleKeepsInvariant(db, limits, clock, later);
      var ready := LifecycleRun(db, later);
      if InSession(now) {
        forall k | 0 <= k < |listed|
          ensures listed[k].intent.tradingDate == DayOf(now)
        {
          LifecycleKeys(db, later);
          ListedAreToday(db, limits, clock, now, later, listed[k].id);
        }
      }
      DispatchLoopKeepsInvariant(ready, limits, later, q, now, listed);
    }
  }

  lemma LifecycleKeys(db: Db, now: Instant)
    ensures LifecycleRun(db, now).rows.Keys == db.rows.Keys
  {
  }

  lemma ClockAdvances(db: Db, limits: Limits, clock: Instant, now: Instant)
    requires Invariant(db, limits, clock) && clock <= now
    ensures Invariant(db, limits, now)
  {
    hide Sound, Capped, Distinct, TriggersFit;
  }

  // ---------------------------------------------------------------- creating

  lemma PositiveValue(d: Dec)
    ensures Value(d) > 0.0 <==> Positive(d)
  {
  }

  /** A request that passes every check is stored well formed and in time. */
  lemma NewIntentFits(inp: CreateInput, security: SecurityType, now: Instant)
    requires CheckParameters(inp, security).Ok? && !HasStrayTrail(inp) && PassesChecks(NewIntent(inp, security, now))
    ensures WellFormed(NewIntent(inp, security, now)) && Started(NewIntent(inp, security, now), now)
    ensures IsLive(NewIntent(inp, security, now).status)
    ensures InSession(now) ==> NewIntent(inp, security, now).tradingDate == DayOf(now)
  {
    hide Value, Validate, ValidFixedAmount, DayOf, OpenOf, InSession;
    var i := NewIntent(inp, security, now);
    TradingDateFollowsCutoff(now);
    if i.target.Some? {
      PositiveValue(i.target.value);
    }
  }

  lemma InsertCounts(db: Db, id: IntentId, i: Intent, owner: UserId, symbol: Symbol)
    requires id !in db.rows
    ensures |LiveOf(Inserted(db, id, i), owner)| <= |LiveOf(db, owner)| + if owner == i.owner then 1 else 0
    ensures |LiveOn(Inserted(db, id, i), owner, symbol)|
            <= |LiveOn(db, owner, symbol)| + if owner == i.owner && symbol == i.symbol then 1 else 0
  {
    var after := Inserted(db, id, i);
    OneMore(LiveOf(after, owner), LiveOf(db, owner), id);
    OneMore(LiveOn(after, owner, symbol), LiveOn(db, owner, symbol), id);
    if owner != i.owner {
      SmallerSet(LiveOf(after, owner), LiveOf(db, owner));
    }
    if owner != i.owner || symbol != i.symbol {
      SmallerSet(LiveOn(after, owner, symbol), LiveOn(db, owner, symbol));
    }
  }

  lemma OneMore(a: set<IntentId>, b: set<IntentId>, id: IntentId)
    requires a <= b + {id}
    ensures |a| <= |b| + 1
  {
    SmallerSet(a, b + {id});
  }

  lemma InsertKeepsCounts(db: Db, limits: Limits, id: IntentId, i: Intent)
    requires Capped(db, limits) && id !in db.rows
    requires !UserCapReached(limits, |LiveOf(db, i.owner)|) && !SymbolCapReached(limits, |LiveOn(db, i.owner, i.symbol)|)
    ensures Capped(Inserted(db, id, i), limits)
  {
    hide LiveOf, LiveOn, Inserted;
    forall owner, symbol
      ensures limits.Limits? ==> |LiveOf(Inserted(db, id, i), owner)| <= limits.perUser
      ensures limits.Limits? ==> |LiveOn(Inserted(db, id, i), owner, symbol)| <= limits.perSymbol
    {
      InsertCounts(db, id, i, owner, symbol);
    }
    forall owner
      ensures limits.Limits? ==> |LiveOf(Inserted(db, id, i), owner)| <= limits.perUser
    {
      InsertCounts(db, id, i, owner, "");
    }
  }

  lemma InsertKeepsDistinct(db: Db, clock: Instant, id: IntentId, i: Intent)
    requires RowsFit(db, clock) && Distinct(db) && id !in db.rows && WellFormed(i) && !ClashesInDb(db, i)
    ensures Distinct(Inserted(db, id, i))
  {
    hide Clashes, NumericallySame, WellFormed;
    var after := Inserted(db, id, i);
    forall other | other in db.rows && IsLive(db.rows[other].status)
      ensures !NumericallySame(db.rows[other], i) && !NumericallySame(i, db.rows[other])
    {
      ClashIsNumeric(db.rows[other], i);
      SameIsSymmetric(db.rows[other], i);
    }
  }

  lemma SameIsSymmetric(a: Intent, b: Intent)
    ensures NumericallySame(a, b) <==> NumericallySame(b, a)
  {
    hide Value;
  }

  lemma InsertKeepsInvariant(db: Db, limits: Limits, clock: Instant, now: Instant, id: IntentId, i: Intent)
    requires Invariant(db, limits, clock) && clock <= now && id !in db.rows
    requires WellFormed(i) && Started(i, now) && IsLive(i.status) && !ClashesInDb(db, i)
    requires !UserCapReached(limits, |LiveOf(db, i.owner)|) && !SymbolCapReached(limits, |LiveOn(db, i.owner, i.symbol)|)
    ensures Invariant(Inserted(db, id, i), limits, now)
  {
    hide Sound, Capped, Distinct, WellFormed, ClashesInDb, Quiet, Justified;
    InsertIsQuiet(db, id, i);
    QuietKeepsSound(db, Inserted(db, id, i));
    InsertKeepsCounts(db, limits, id, i);
    InsertKeepsDistinct(db, clock, id, i);
  }

  /** Creating keeps the invariant and never faults while triggering inline. */
  lemma CreateKeepsInvariant(
      db: Db, limits: Limits, clock: Instant, id: IntentId, inp: CreateInput, security: Option<SecurityType>,
      now: Instant, subscribed: bool, halted: bool, quote: Option<Quote>)
    requires Invariant(db, limits, clock) && clock <= now && id !in db.rows
    ensures var r := Created(db, id, inp, security, limits, now, subscribed, halted, quote);
            && (r.Ok? ==> Invariant(r.value, limits, now) && id in r.value.rows)
            && (r.Err? ==> !r.error.InlineFault?)
  {
    hide Invariant, CheckParameters, ClashesInDb, PassesChecks, NewIntent, Inserted, Processed, WellFormed, Started;
    hide InSession, Evaluate, LiveOf, LiveOn;
    var r := Created(db, id, inp, security, limits, now, subscribed, halted, quote);
    if security.Some? {
      ParameterErrors(inp, security.value);
    }
    if security.Some? && CheckParameters(inp, security.value).Ok? {
      var i := NewIntent(inp, security.value, now);
      NewIntentOwner(inp, security.value, now);
      if !UserCapReached(limits, |LiveOf(db, inp.owner)|) && !SymbolCapReached(limits, |LiveOn(db, inp.owner, inp.symbol)|)
         && !HasStrayTrail(inp) && !ClashesInDb(db, i) && PassesChecks(i) && subscribed {
        NewIntentFits(inp, security.value, now);
        InsertKeepsInvariant(db, limits, clock, now, id, i);
        InsertedRow(db, id, i);
        if StartsActive(now) && quote.Some? {
          TurnKeepsInvariant(Inserted(db, id, i), limits, now, quote.value, now, Listed(id, i));
        }
      }
    }
  }

  lemma ParameterErrors(inp: CreateInput, security: SecurityType)
    ensures var r := CheckParameters(inp, security); r.Err? ==> r.error.BadParameters? || r.error.BadPrice?
  {
  }

  lemma NewIntentOwner(inp: CreateInput, security: SecurityType, now: Instant)
    ensures NewIntent(inp, security, now).owner == inp.owner && NewIntent(inp, security, now).symbol == inp.symbol
    ensures StartsActive(now) ==> NewIntent(inp, security, now).status.Active?
  {
  }

  lemma InsertedRow(db: Db, id: IntentId, i: Intent)
    ensures id in Inserted(db, id, i).rows && Inserted(db, id, i).rows[id] == i
  {
  }

  /** The duplicate check refuses a request exactly when a live intent asks for the same numbers. */
  lemma DuplicateCheckIsNumeric(db: Db, clock: Instant, i: Intent)
    requires RowsFit(db, clock) && WellFormed(i)
    ensures ClashesInDb(db, i) <==>
            exists id :: id in db.rows && IsLive(db.rows[id].status) && NumericallySame(db.rows[id], i)
  {
    hide Clashes, NumericallySame, WellFormed;
    forall id | id in db.rows
      ensures Clashes(db.rows[id], i) <==> NumericallySame(db.rows[id], i)
    {
      ClashIsNumeric(db.rows[id], i);
    }
  }

  // ---------------------------------------------------------------- runs of commands

  datatype Command =
    | CreateCommand(id: IntentId, inp: CreateInput, security: Option<SecurityType>, now: Instant,
                    subscribed: bool, halted: bool, quote: Option<Quote>)
    | CancelCommand(id: IntentId, owner: UserId, now: Instant)
    | LifecycleCommand(now: Instant)
    | DisableCommand(owner: UserId, now: Instant)
    | DispatchCommand(snapshot: Quote, now: Instant, later: Instant, halted: bool, listed: seq<Listed>)

  datatype Site = Site(db: Db, clock: Instant)

  /** The clock has not gone back, ids are fresh, and a dispatch lists what it finds. */
  ghost predicate Enabled(s: Site, c: Command) {
    && s.clock <= c.now
    && (c.CreateCommand? ==> c.id !in s.db.rows)
    && (c.DispatchCommand? ==>
          && c.now <= c.later < c.now + OVERNIGHT
          && (!c.halted ==> IsListing(LifecycleRun(s.db, c.later), c.snapshot.symbol, c.listed)))
  }

  ghost function Execute(s: Site, limits: Limits, c: Command): Site
    requires Enabled(s, c)
  {
    match c
    case CreateCommand(id, inp, security, now, subscribed, halted, quote) =>
      var r := Created(s.db, id, inp, security, limits, now, subscribed, halted, quote);
      Site(if r.Ok? then r.value else s.db, now)
    case CancelCommand(id, owner, now) => Site(CancelledBy(s.db, id, owner), now)
    case LifecycleCommand(now) => Site(LifecycleRun(s.db, now), now)
    case DisableCommand(owner, now) => Site(OwnerDisabled(s.db, owner), now)
    case DispatchCommand(q, now, later, halted, listed) => Site(Dispatched(s.db, q, now, later, halted, listed), later)
  }

  /** `t` is reached from `s` by the commands, each enabled when it runs. */
  ghost predicate Reaches(s: Site, limits: Limits, commands: seq<Command>, t: Site)
    decreases |commands|
  {
    if commands == [] then s == t
    else Enabled(s, commands[0]) && Reaches(Execute(s, limits, commands[0]), limits, commands[1..], t)
  }

  lemma SameRowsKeepInvariant(db: Db, after: Db, limits: Limits, clock: Instant, now: Instant)
    requires Invariant(db, limits, clock) && clock <= now && Quiet(db, after) && after.rows.Keys == db.rows.Keys
    requires forall id :: id in db.rows ==>
               && after.rows[id] == db.rows[id].(status := after.rows[id].status)
               && (after.rows[id].status.Active? ==> db.rows[id].status.Active?)
    ensures Invariant(after, limits, now)
  {
    hide Sound, Capped, Distinct, TriggersFit, Quiet;
    QuietKeepsInvariant(db, after, limits, clock, now);
  }

  lemma CommandKeepsInvariant(s: Site, limits: Limits, c: Command)
    requires Invariant(s.db, limits, s.clock) && Enabled(s, c)
    ensures Invariant(Execute(s, limits, c).db, limits, Execute(s, limits, c).clock)
  {
    hide Invariant, LifecycleRun, Dispatched, Created, Quiet;
    match c
    case CreateCommand(id, inp, security, now, subscribed, halted, quote) =>
      CreateKeepsInvariant(s.db, limits, s.clock, id, inp, security, now, subscribed, halted, quote);
      ClockAdvances(s.db, limits, s.clock, now);
    case CancelCommand(id, owner, now) =>
      CancelIsQuiet(s.db, id);
      SameRowsKeepInvariant(s.db, CancelWrite(s.db, id), limits, s.clock, now);
      ClockAdvances(s.db, limits, s.clock, now);
    case LifecycleCommand(now) =>
      LifecycleKeepsInvariant(s.db, limits, s.clock, now);
    case DisableCommand(owner, now) =>
      DisableIsQuiet(s.db, owner);
      SameRowsKeepInvariant(s.db, OwnerDisabled(s.db, owner), limits, s.clock, now);
    case DispatchCommand(q, now, later, halted, listed) =>
      DispatchKeepsInvariant(s.db, limits, s.clock, q, now, later, halted, listed);
  }

  lemma {:induction false} ReachesKeepsInvariant(s: Site, limits: Limits, commands: seq<Command>, t: Site)
    requires Invariant(s.db, limits, s.clock) && Reaches(s, limits, commands, t)
    ensures Invariant(t.db, limits, t.clock)
    decreases |commands|
  {
    hide Invariant, Execute, Enabled;
    if commands != [] {
      CommandKeepsInvariant(s, limits, commands[0]);
      ReachesKeepsInvariant(Execute(s, limits, commands[0]), limits, commands[1..], t);
    }
  }

  /** Every state of every run from an empty table satisfies the invariant. */
  lemma EveryRunKeepsInvariant(limits: Limits, start: Instant, commands: seq<Command>, t: Site)
    requires Reaches(Site(EmptyDb(), start), limits, commands, t)
    ensures Invariant(t.db, limits, t.clock)
  {
    var db := EmptyDb();
    assert Capped(db, limits) by {
      assert forall owner :: LiveOf(db, owner) == {};
      assert forall owner, symbol :: LiveOn(db, owner, symbol) == {};
    }
    ReachesKeepsInvariant(Site(db, start), limits, commands, t);
  }

  /**
   Every trigger of every run happened inside the session of its intent's trading date, on a
   quote that was not stale; the quote is of that session too exactly when it is not dated
   after the day.
   */
  lemma TriggersHappenInOwnSession(limits: Limits, start: Instant, commands: seq<Command>, t: Site, k: nat)
    requires Reaches(Site(EmptyDb(), start), limits, commands, t) && k < |t.db.triggers|
    ensures var row := t.db.triggers[k];
            && row.intent in t.db.rows
            && InSession(row.at) && DayOf(row.at) == t.db.rows[row.intent].tradingDate
            && InSession(row.quoteTime) && row.at - row.quoteTime <= FRESHNESS
            && (DayOf(row.quoteTime) == t.db.rows[row.intent].tradingDate
                <==> row.quoteTime < MidnightAfter(t.db.rows[row.intent].tradingDate))
  {
    EveryRunKeepsInvariant(limits, start, commands, t);
  }

  /** No run ever holds two live intents that ask for the same thing. */
  lemma NoTwoLiveAlike(limits: Limits, start: Instant, commands: seq<Command>, t: Site, a: IntentId, b: IntentId)
    requires Reaches(Site(EmptyDb(), start), limits, commands, t)
    requires a in t.db.rows && b in t.db.rows && IsLive(t.db.rows[a].status) && IsLive(t.db.rows[b].status)
    requires NumericallySame(t.db.rows[a], t.db.rows[b])
    ensures a == b
  {
    hide Sound, RowsFit, TriggersFit, Capped, NumericallySame;
    EveryRunKeepsInvariant(limits, start, commands, t);
  }

  // ---------------------------------------------------------------- terminal states

  /** Terminal rows keep their status. */
  ghost predicate KeepsTerminal(before: Db, after: Db) {
    forall id :: id in before.rows && !IsLive(before.rows[id].status) ==>
      id in after.rows && after.rows[id].status == before.rows[id].status
  }

  lemma {:induction false} LoopKeepsTerminal(db: Db, q: Quote, now: Instant, listed: seq<Listed>)
    requires ProcessedAll(db, q, now, listed).Ok?
    ensures KeepsTerminal(db, ProcessedAll(db, q, now, listed).value)
    decreases |listed|
  {
    if listed != [] {
      hide Processed;
      var first := Processed(db, q, now, listed[0]).value;
      TurnKeepsTerminal(db, q, now, listed[0]);
      LoopKeepsTerminal(first, q, now, listed[1..]);
    }
  }

  lemma LifecycleKeepsTerminal(db: Db, now: Instant)
    ensures KeepsTerminal(db, LifecycleRun(db, now))
  {
  }

  lemma DispatchKeepsTerminal(s: Site, limits: Limits, c: Command)
    requires Enabled(s, c) && c.DispatchCommand?
    ensures KeepsTerminal(s.db, Execute(s, limits, c).db)
  {
    hide IsListing, ProcessedAll, LifecycleRun;
    var ready := LifecycleRun(s.db, c.later);
    LifecycleKeepsTerminal(s.db, c.later);
    if !c.halted && ProcessedAll(ready, c.snapshot, c.now, c.listed).Ok? {
      LoopKeepsTerminal(ready, c.snapshot, c.now, c.listed);
    }
  }

  lemma TurnKeepsTerminal(db: Db, q: Quote, now: Instant, l: Listed)
    requires Processed(db, q, now, l).Ok?
    ensures KeepsTerminal(db, Processed(db, q, now, l).value)
  {
    hide Evaluate, TriggerRowFor, HasTrigger;
  }

  lemma CreateKeepsTerminal(s: Site, limits: Limits, c: Command)
    requires Enabled(s, c) && c.CreateCommand?
    ensures KeepsTerminal(s.db, Execute(s, limits, c).db)
  {
    hide Processed, CheckParameters, ClashesInDb, PassesChecks, NewIntent, LiveOf, LiveOn;
    var r := Created(s.db, c.id, c.inp, c.security, limits, c.now, c.subscribed, c.halted, c.quote);
    if r.Ok? && StartsActive(c.now) && !c.halted && c.quote.Some? {
      var i := NewIntent(c.inp, c.security.value, c.now);
      TurnKeepsTerminal(Inserted(s.db, c.id, i), c.quote.value, c.now, Listed(c.id, i));
    }
  }

  lemma CommandKeepsTerminal(s: Site, limits: Limits, c: Command)
    requires Enabled(s, c)
    ensures KeepsTerminal(s.db, Execute(s, limits, c).db)
  {
    hide Created, IsListing, Dispatched, LifecycleRun;
    if c.CreateCommand? {
      CreateKeepsTerminal(s, limits, c);
    } else if c.DispatchCommand? {
      DispatchKeepsTerminal(s, limits, c);
    } else if c.LifecycleCommand? {
      LifecycleKeepsTerminal(s.db, c.now);
    }
  }

  /** With whole commands as steps every terminal status is absorbing, from any state. */
  lemma {:induction false} TerminalIsAbsorbing(s: Site, limits: Limits, commands: seq<Command>, t: Site)
    requires Reaches(s, limits, commands, t)
    ensures KeepsTerminal(s.db, t.db)
    decreases |commands|
  {
    hide Execute, Enabled;
    if commands != [] {
      CommandKeepsTerminal(s, limits, commands[0]);
      TerminalIsAbsorbing(Execute(s, limits, commands[0]), limits, commands[1..], t);
    }
  }
}
