/**
 What happens to time-weighted orders once they end, and how many may be live at once, over
 every run of the book.
 */
module TwapEndings {
  import opened Outcomes
  import opened TradingSession
  import opened Intents
  import opened TwapPlan
  import opened TwapBook
  import opened TwapRuns

  /** The same orders, of which at most live ones have changed, and only in status. */
  ghost predicate OnlyLiveMove(a: Book, b: Book) {
    && a.orders.Keys == b.orders.Keys
    && (forall id :: id in a.orders ==>
          && b.orders[id] == a.orders[id].(status := b.orders[id].status)
          && (!IsLive(a.orders[id].status) ==> b.orders[id] == a.orders[id]))
  }

  /** The slices of this order and the messages about this slice are as before. */
  ghost predicate Untouched(a: Book, b: Book, k: Key) {
    && (k in a.slices <==> k in b.slices) && (k in a.slices ==> a.slices[k] == b.slices[k])
    && forall kind :: Count(b.notes, kind, k) == Count(a.notes, kind, k)
  }

  lemma SameIsUntouched(b: Book, k: Key)
    ensures Untouched(b, b, k)
  {
  }

  lemma SameRowIsUntouched(b: Book, c: Book, k: Key)
    requires (k in b.slices <==> k in c.slices) && (k in b.slices ==> b.slices[k] == c.slices[k]) && b.notes == c.notes
    ensures Untouched(b, c, k)
  {
  }

  lemma UntouchedTwice(a: Book, b: Book, c: Book, k: Key)
    requires Untouched(a, b, k) && Untouched(b, c, k)
    ensures Untouched(a, c, k)
  {
  }

  lemma UntouchedKeepsQuiet(a: Book, b: Book, k: Key)
    requires Untouched(a, b, k) && k.order in a.orders && k.order in b.orders && b.orders[k.order] == a.orders[k.order]
    ensures MaySpeak(a, k) == MaySpeak(b, k)
  {
  }

  lemma UntouchedCounts(a: Book, b: Book, k: Key, kind: SliceNoteKind)
    requires Untouched(a, b, k)
    ensures Count(b.notes, kind, k) == Count(a.notes, kind, k)
  {
  }

  lemma BatchHolds(b: Book, picks: seq<Pick>, now: Instant)
    requires DueBatch(b, picks, now) || FollowupBatch(b, picks, now)
    ensures Holds(b, picks)
  {
  }

  lemma NotifyMoves(b: Book, p: Pick, now: Instant)
    requires p.key in b.slices && p.key.order in b.orders
    ensures OnlyLiveMove(b, SliceNotified(b, p, now)) && SliceNotified(b, p, now).slices.Keys == b.slices.Keys
    ensures forall k :: k != p.key ==> Untouched(b, SliceNotified(b, p, now), k)
  {
    hide HasPending;
    forall k: Key, kind | k != p.key
      ensures Count(SliceNotified(b, p, now).notes, kind, k) == Count(b.notes, kind, k)
    {
      CountAppends(b.notes, SliceNote(Primary, p.key, now), kind, k);
    }
  }

  lemma FollowupMoves(b: Book, p: Pick, now: Instant)
    requires p.key in b.slices
    ensures FollowedUp(b, p, now).orders == b.orders && FollowedUp(b, p, now).slices.Keys == b.slices.Keys
    ensures forall k :: k != p.key ==> Untouched(b, FollowedUp(b, p, now), k)
    ensures Count(FollowedUp(b, p, now).notes, Primary, p.key) == Count(b.notes, Primary, p.key)
    ensures Count(FollowedUp(b, p, now).notes, PriceFollowup, p.key)
            == Count(b.notes, PriceFollowup, p.key) + if p.price.Some? then 1 else 0
  {
    forall k: Key, kind
      ensures p.price.Some? ==> Count(FollowedUp(b, p, now).notes, kind, k)
                                == Count(b.notes, kind, k) + if kind.PriceFollowup? && k == p.key then 1 else 0
    {
      CountAppends(b.notes, SliceNote(PriceFollowup, p.key, now), kind, k);
    }
  }

  lemma {:induction false} BatchMoves(b: Book, picks: seq<Pick>, now: Instant, k: Key)
    requires Holds(b, picks)
    ensures OnlyLiveMove(b, AllNotified(b, picks, now))
    ensures (forall i :: 0 <= i < |picks| ==> picks[i].key != k) ==> Untouched(b, AllNotified(b, picks, now), k)
    decreases |picks|
  {
    hide SliceNotified, Untouched;
    if picks == [] {
      SameIsUntouched(b, k);
    } else {
      NotifyMoves(b, picks[0], now);
      var next := SliceNotified(b, picks[0], now);
      BatchMoves(next, picks[1..], now, k);
      if forall i :: 0 <= i < |picks| ==> picks[i].key != k {
        assert forall i :: 0 <= i < |picks[1..]| ==> picks[1..][i] == picks[i + 1];
        UntouchedTwice(b, next, AllNotified(b, picks, now), k);
      }
    }
  }

  lemma {:induction false} FollowupsMove(b: Book, picks: seq<Pick>, now: Instant, k: Key)
    requires Holds(b, picks)
    ensures AllFollowedUp(b, picks, now).orders == b.orders
    ensures Count(AllFollowedUp(b, picks, now).notes, Primary, k) == Count(b.notes, Primary, k)
    ensures (forall i :: 0 <= i < |picks| ==> picks[i].key != k) ==> Untouched(b, AllFollowedUp(b, picks, now), k)
    decreases |picks|
  {
    hide FollowedUp, Untouched;
    if picks == [] {
      SameIsUntouched(b, k);
    } else {
      FollowupMoves(b, picks[0], now);
      var next := FollowedUp(b, picks[0], now);
      FollowupsMove(next, picks[1..], now, k);
      if k != picks[0].key {
        UntouchedCounts(b, next, k, Primary);
      }
      if forall i :: 0 <= i < |picks| ==> picks[i].key != k {
        assert forall i :: 0 <= i < |picks[1..]| ==> picks[1..][i] == picks[i + 1];
        UntouchedTwice(b, next, AllFollowedUp(b, picks, now), k);
      }
    }
  }

  lemma LifecycleMoves(b: Book, now: Instant, k: Key)
    ensures OnlyLiveMove(b, TwapLifecycle(b, now)) && TwapLifecycle(b, now).notes == b.notes
    ensures k.order in b.orders && !IsLive(b.orders[k.order].status) ==> Untouched(b, TwapLifecycle(b, now), k)
  {
  }

  lemma CancelMoves(b: Book, id: IntentId, owner: UserId, k: Key)
    ensures OnlyLiveMove(b, TwapCancelled(b, id, owner)) && TwapCancelled(b, id, owner).notes == b.notes
    ensures k.order in b.orders && !IsLive(b.orders[k.order].status) ==> Untouched(b, TwapCancelled(b, id, owner), k)
  {
  }

  // ---------------------------------------------------------------- ended orders

  ghost predicate Ended(b: Book, id: IntentId) {
    id in b.orders && !IsLive(b.orders[id].status)
  }

  /** A slice of this book may still send its price to its chat. */
  ghost predicate MaySpeak(b: Book, k: Key) {
    k in b.slices && k.order in b.orders && b.slices[k].followupRequired && !b.orders[k.order].status.Cancelled?
  }

  lemma PickedIsLive(b: Book, picks: seq<Pick>, now: Instant, k: Key)
    requires DueBatch(b, picks, now) && Ended(b, k.order)
    ensures forall i :: 0 <= i < |picks| ==> picks[i].key != k
  {
  }

  lemma PickedMaySpeak(b: Book, picks: seq<Pick>, now: Instant, k: Key)
    requires FollowupBatch(b, picks, now) && !MaySpeak(b, k)
    ensures forall i :: 0 <= i < |picks| ==> picks[i].key != k
  {
  }

  /** Storing another order's slices. */
  lemma {:induction false} OthersSlicesStay(slices: map<Key, SliceRow>, id: IntentId, planned: seq<Slice>, k: Key)
    requires k.order != id
    ensures k in WithSlices(slices, id, planned) <==> k in slices
    ensures k in slices ==> WithSlices(slices, id, planned)[k] == slices[k]
    decreases |planned|
  {
    if planned != [] {
      OthersSlicesStay(slices, id, planned[..|planned| - 1], k);
    }
  }

  /** What one event does to a slice of an ended order. */
  lemma EventOnEnded(b: Book, e: Event, k: Key)
    requires Enabled(b, e) && Ended(b, k.order)
    ensures var c := Apply(b, e);
            && k.order in c.orders && c.orders[k.order] == b.orders[k.order]
            && Count(c.notes, Primary, k) == Count(b.notes, Primary, k)
            && (!MaySpeak(b, k) ==> Untouched(b, c, k))
  {
    hide TwapLifecycle, TwapCancelled, AllNotified, AllFollowedUp, DueBatch, FollowupBatch, PlanFor, SamePlanLive, Untouched, MaySpeak, WithSlices;
    SameIsUntouched(b, k);
    match e
    case Confirm(id, owner, symbol, side, request, now) =>
      var plan := PlanFor(request, now);
      if plan.Ok? {
        OthersSlicesStay(b.slices, id, plan.value.slices, k);
        var c := Apply(b, e);
        assert Untouched(b, c, k) by { SameRowIsUntouched(b, c, k); }
      }
    case Lifecycle(now) => LifecycleMoves(b, now, k);
    case Cancel(id, owner) => CancelMoves(b, id, owner, k);
    case DisableOwner(owner) => SameRowIsUntouched(b, Apply(b, e), k);
    case DueWork(now, later, halted, picks) =>
      var ready := TwapLifecycle(b, later);
      LifecycleMoves(b, later, k);
      if WorkerRuns(now, halted) {
        BatchHolds(ready, picks, now);
        PickedIsLive(ready, picks, now, k);
        BatchMoves(ready, picks, now, k);
        UntouchedTwice(b, ready, Apply(b, e), k);
      }
    case FollowupWork(now, later, halted, picks) =>
      var ready := TwapLifecycle(b, later);
      LifecycleMoves(b, later, k);
      if WorkerRuns(now, halted) {
        BatchHolds(ready, picks, now);
        FollowupsMove(ready, picks, now, k);
        if !MaySpeak(b, k) {
          UntouchedKeepsQuiet(b, ready, k);
          PickedMaySpeak(ready, picks, now, k);
          UntouchedTwice(b, ready, Apply(b, e), k);
        }
      }
  }

  /** An ended order keeps its status for good, and not one more of its slices is notified. */
  lemma {:induction false} EndedOrderStaysEnded(b: Book, events: seq<Event>, c: Book, k: Key)
    requires Ended(b, k.order) && Reaches(b, events, c)
    ensures k.order in c.orders && c.orders[k.order] == b.orders[k.order]
    ensures Count(c.notes, Primary, k) == Count(b.notes, Primary, k)
    ensures !MaySpeak(b, k) ==> Untouched(b, c, k)
    decreases |events|
  {
    hide Enabled, Apply, Untouched, MaySpeak, Count;
    if events == [] {
      SameIsUntouched(b, k);
    } else {
      var next := Apply(b, events[0]);
      EventOnEnded(b, events[0], k);
      EndedOrderStaysEnded(next, events[1..], c, k);
      if !MaySpeak(b, k) {
        UntouchedKeepsQuiet(b, next, k);
        UntouchedTwice(b, next, c, k);
      }
    }
  }

  /** Some continuation sends one more price for the slice. */
  ghost predicate SpeaksAgain(b: Book, events: seq<Event>, c: Book, k: Key) {
    Reaches(b, events, c) && Count(c.notes, PriceFollowup, k) > Count(b.notes, PriceFollowup, k)
  }

  lemma SessionAfter(t: Instant) returns (now: Instant)
    ensures now >= t && PhaseAt(now).RegularSession?
  {
    var d := NextTradingDay(DayOf(t));
    NextIsLeast(DayOf(t));
    now := OpenOf(d);
    assert t == DayOf(t) * DAY + TimeOfDay(t);
    assert DayOf(now) == d && TimeOfDay(now) == SESSION_START;
  }

  /** A pass of the follow-up worker over one slice, which finds its price. */
  function PriceFound(k: Key, now: Instant): Event {
    FollowupWork(now, now, false, [Pick(k, Some(1.0))])
  }

  lemma WaitingIsPicked(b: Book, k: Key, now: Instant)
    requires Invariant(b) && Ended(b, k.order) && MaySpeak(b, k)
    requires b.slices[k].nextFollowup.Some? && b.slices[k].nextFollowup.value <= now
    ensures FollowupBatch(TwapLifecycle(b, now), [Pick(k, Some(1.0))], now)
  {
    hide TwapLifecycle, Count;
    LifecycleMoves(b, now, k);
    assert SliceFits(b, k);
    assert WantsFollowup(TwapLifecycle(b, now), k, now);
  }

  lemma FoundPriceIsSent(b: Book, k: Key, now: Instant)
    requires Ended(b, k.order) && PhaseAt(now).RegularSession?
    requires FollowupBatch(TwapLifecycle(b, now), [Pick(k, Some(1.0))], now)
    ensures Enabled(b, PriceFound(k, now))
    ensures SpeaksAgain(b, [PriceFound(k, now)], Apply(b, PriceFound(k, now)), k)
  {
    hide TwapLifecycle, PhaseAt, FollowedUp, Count, FollowupBatch, Untouched;
    var e, picks, ready := PriceFound(k, now), [Pick(k, Some(1.0))], TwapLifecycle(b, now);
    LifecycleMoves(b, now, k);
    BatchHolds(ready, picks, now);
    FollowupMoves(ready, picks[0], now);
    UntouchedCounts(b, ready, k, PriceFollowup);
    assert picks[1..] == [];
    assert AllFollowedUp(ready, picks, now) == FollowedUp(ready, picks[0], now);
    assert [e][1..] == [];
    assert Reaches(Apply(b, e), [], Apply(b, e));
  }

  lemma WaitingHasTime(b: Book, k: Key)
    requires Invariant(b) && MaySpeak(b, k)
    ensures k in b.slices && b.slices[k].nextFollowup.Some?
  {
    assert SliceFits(b, k);
  }

  /**
   After an order has ended, a slice of it can still send a message exactly when it waits for
   its price and the order was not cancelled by its owner.
   */
  lemma EndedOrderSpeaksExactlyWhileWaiting(b: Book, k: Key)
    requires Invariant(b) && Ended(b, k.order)
    ensures (exists events, c :: SpeaksAgain(b, events, c, k)) <==> MaySpeak(b, k)
  {
    hide Invariant, MaySpeak;
    if MaySpeak(b, k) {
      WaitingHasTime(b, k);
      var now := SessionAfter(b.slices[k].nextFollowup.value);
      WaitingIsPicked(b, k, now);
      FoundPriceIsSent(b, k, now);
    }
    forall events, c | SpeaksAgain(b, events, c, k)
      ensures MaySpeak(b, k)
    {
      EndedOrderStaysEnded(b, events, c, k);
      if !MaySpeak(b, k) {
        UntouchedCounts(b, c, k, PriceFollowup);
      }
    }
  }

  // ---------------------------------------------------------------- a message after the account is gone

  /** Ten o'clock on day 0. */
  const TEN := 10 * 3_600 * SECOND

  const DEMAND := Request(2, 60, Some(SESSION_START), LATEST_END)

  const PLANNING := Confirm(1, 7, "2330", Long, DEMAND, TEN)

  /** The first slice is announced while its symbol has no price. */
  const ANNOUNCING := DueWork(TEN, TEN, false, [Pick(Key(1, 1), None)])

  /** An active order of two slices for day 0, the first pending and due. */
  ghost predicate IsPlanned(b: Book) {
    && 1 in b.orders && b.orders[1].owner == 7 && b.orders[1].status.Active? && b.orders[1].tradingDate == 0
    && Key(1, 1) in b.slices && b.slices[Key(1, 1)].status.Pending? && b.slices[Key(1, 1)].at <= TEN
    && Key(1, 2) in b.slices && b.slices[Key(1, 2)].status.Pending?
  }

  lemma TenIsInSession()
    ensures PhaseAt(TEN).RegularSession? && DayOf(TEN) == 0 && ExpiryCutoff(TEN) == -1
  {
  }

  lemma DemandIsPlanned()
    ensures PlanFor(DEMAND, TEN).Ok?
    ensures var p := PlanFor(DEMAND, TEN).value;
            && p.phase.RegularSession? && p.tradingDate == 0 && |p.slices| == 2
            && p.slices[0].number == 1 && p.slices[0].at == SESSION_START && p.slices[1].number == 2
  {
    hide Spread;
    TenIsInSession();
    assert StartAt(DEMAND, TEN) == SESSION_START && Available(DEMAND, TEN) >= 2;
    SpreadAt(SESSION_START, 60, 2, 2, 0);
    SpreadAt(SESSION_START, 60, 2, 2, 1);
  }

  lemma OrderIsPlanned()
    ensures IsPlanned(Apply(EMPTY, PLANNING))
  {
    hide PlanFor, WithSlices;
    DemandIsPlanned();
    var p := PlanFor(DEMAND, TEN).value;
    assert !SamePlanLive(EMPTY, 7, "2330", Long, p.tradingDate);
    AddedSlices(EMPTY.slices, 1, p.slices);
  }

  lemma LifecycleKeepsPlanned(b: Book)
    requires IsPlanned(b)
    ensures IsPlanned(TwapLifecycle(b, TEN))
  {
    hide PhaseAt, DayOf, ExpiryCutoff;
    TenIsInSession();
  }

  /** The order goes on with its second slice, and the first now waits for its price. */
  ghost predicate AwaitsPrice(b: Book) {
    && 1 in b.orders && b.orders[1].owner == 7 && IsLive(b.orders[1].status)
    && Key(1, 1) in b.slices && b.slices[Key(1, 1)].followupRequired
  }

  lemma SliceIsAnnounced(b: Book)
    requires IsPlanned(b)
    ensures Enabled(b, ANNOUNCING) && AwaitsPrice(Apply(b, ANNOUNCING))
  {
    hide TwapLifecycle, PhaseAt, HasPending;
    TenIsInSession();
    LifecycleKeepsPlanned(b);
    var ready, picks := TwapLifecycle(b, TEN), [Pick(Key(1, 1), None)];
    assert DueBatch(ready, picks, TEN);
    BatchHolds(ready, picks, TEN);
    assert picks[1..] == [];
    assert AllNotified(ready, picks, TEN) == SliceNotified(ready, picks[0], TEN);
    var woken := Book(ready.orders[1 := ready.orders[1]],
                      ready.slices[Key(1, 1) := NotifiedRow(ready.slices[Key(1, 1)], None, TEN)],
                      ready.notes + [SliceNote(Primary, Key(1, 1), TEN)]);
    SecondIsPending(woken, Key(1, 2));
  }

  lemma SecondIsPending(b: Book, k: Key)
    requires k in b.slices && b.slices[k].status.Pending?
    ensures HasPending(b, k.order)
  {
  }

  /** A run that disables the account of a live order, and a continuation that still sends a message for it. */
  ghost predicate SpeaksAfterDisable(events: seq<Event>, b: Book, more: seq<Event>, c: Book, k: Key) {
    && Reaches(EMPTY, events, b) && Ended(b, k.order) && b.orders[k.order].status.CancelledByAccountDisabled?
    && SpeaksAgain(b, more, c, k)
  }

  /** Disabling the account does not stop a price follow-up that is still due. */
  lemma DisabledOrderCanSpeak()
    ensures exists events, b, more, c, k :: SpeaksAfterDisable(events, b, more, c, k)
  {
    hide Invariant, Enabled, SpeaksAgain, Ended, MaySpeak, TwapDisabled;
    var k := Key(1, 1);
    assert Enabled(EMPTY, PLANNING) by { IdIsFresh(); }
    var planned := Apply(EMPTY, PLANNING);
    OrderIsPlanned();
    SliceIsAnnounced(planned);
    var waiting := Apply(planned, ANNOUNCING);
    assert Enabled(waiting, DisableOwner(7)) by { DisableIsEnabled(waiting); }
    var b := Apply(waiting, DisableOwner(7));
    DisabledStillWaits(waiting);
    var events := [PLANNING, ANNOUNCING, DisableOwner(7)];
    assert Reaches(EMPTY, events, b) by {
      hide Apply;
      assert events[1..] == [ANNOUNCING, DisableOwner(7)] && events[1..][1..] == [DisableOwner(7)];
      assert [DisableOwner(7)][1..] == [];
      assert Reaches(b, [], b);
      assert Reaches(waiting, [DisableOwner(7)], b);
      assert Reaches(planned, [ANNOUNCING, DisableOwner(7)], b);
    }
    assert Invariant(b) by {
      EmptyIsSound();
      ReachesKeepsInvariant(EMPTY, events, b);
    }
    EndedOrderSpeaksExactlyWhileWaiting(b, k);
    var more, c :| SpeaksAgain(b, more, c, k);
    assert SpeaksAfterDisable(events, b, more, c, k);
  }

  lemma EmptyIsSound()
    ensures Invariant(EMPTY)
  {
  }

  lemma IdIsFresh()
    ensures Enabled(EMPTY, PLANNING)
  {
  }

  lemma DisableIsEnabled(b: Book)
    ensures Enabled(b, DisableOwner(7))
  {
  }

  lemma DisabledStillWaits(b: Book)
    requires AwaitsPrice(b)
    ensures var after := TwapDisabled(b, 7);
            && Ended(after, 1) && after.orders[1].status.CancelledByAccountDisabled? && MaySpeak(after, Key(1, 1))
  {
  }

  // ---------------------------------------------------------------- one live plan of a kind

  predicate SameKind(a: Order, b: Order) {
    a.owner == b.owner && a.symbol == b.symbol && a.side == b.side && a.tradingDate == b.tradingDate
  }

  ghost predicate OneLiveOfAKind(b: Book) {
    forall i, j :: i in b.orders && j in b.orders && i != j && IsLive(b.orders[i].status) && IsLive(b.orders[j].status)
                   ==> !SameKind(b.orders[i], b.orders[j])
  }

  lemma MovesKeepOneLive(a: Book, b: Book)
    requires OneLiveOfAKind(a) && OnlyLiveMove(a, b)
    ensures OneLiveOfAKind(b)
  {
  }

  lemma DisableMoves(b: Book, owner: UserId)
    ensures OnlyLiveMove(b, TwapDisabled(b, owner))
  {
  }

  lemma EventKeepsOneLive(b: Book, e: Event)
    requires OneLiveOfAKind(b) && Enabled(b, e)
    ensures OneLiveOfAKind(Apply(b, e))
  {
    hide TwapLifecycle, TwapCancelled, TwapDisabled, AllNotified, AllFollowedUp, PlanFor, WithSlices, OnlyLiveMove, DueBatch, FollowupBatch;
    var k := Key(0, 0);
    match e
    case Confirm(id, owner, symbol, side, request, now) =>
      if PlanFor(request, now).Ok? {
        CreateKeepsOneLive(b, id, owner, symbol, side, PlanFor(request, now).value);
      }
    case Lifecycle(now) =>
      LifecycleMoves(b, now, k);
      MovesKeepOneLive(b, Apply(b, e));
    case Cancel(id, owner) =>
      CancelMoves(b, id, owner, k);
      MovesKeepOneLive(b, Apply(b, e));
    case DisableOwner(owner) =>
      DisableMoves(b, owner);
      MovesKeepOneLive(b, Apply(b, e));
    case DueWork(now, later, halted, picks) =>
      var ready := TwapLifecycle(b, later);
      LifecycleMoves(b, later, k);
      MovesKeepOneLive(b, ready);
      if WorkerRuns(now, halted) {
        BatchHolds(ready, picks, now);
        BatchMoves(ready, picks, now, k);
        MovesKeepOneLive(ready, Apply(b, e));
      }
    case FollowupWork(now, later, halted, picks) =>
      var ready := TwapLifecycle(b, later);
      LifecycleMoves(b, later, k);
      MovesKeepOneLive(b, ready);
      if WorkerRuns(now, halted) {
        BatchHolds(ready, picks, now);
        FollowupsMove(ready, picks, now, k);
      }
  }

  lemma CreateKeepsOneLive(b: Book, id: IntentId, owner: UserId, symbol: Symbol, side: Side, p: Plan)
    requires OneLiveOfAKind(b) && id !in b.orders
    ensures var r := TwapCreated(b, id, owner, symbol, side, p); r.Ok? ==> OneLiveOfAKind(r.value)
  {
    hide WithSlices;
  }

  lemma {:induction false} ReachesKeepsOneLive(b: Book, events: seq<Event>, c: Book)
    requires OneLiveOfAKind(b) && Reaches(b, events, c)
    ensures OneLiveOfAKind(c)
    decreases |events|
  {
    hide OneLiveOfAKind, Enabled, Apply;
    if events != [] {
      EventKeepsOneLive(b, events[0]);
      ReachesKeepsOneLive(Apply(b, events[0]), events[1..], c);
    }
  }

  /** In every run two live orders never share owner, symbol, side and date. */
  lemma NoTwoLivePlansAlike(events: seq<Event>, b: Book, i: IntentId, j: IntentId)
    requires Reaches(EMPTY, events, b) && i in b.orders && j in b.orders
    requires IsLive(b.orders[i].status) && IsLive(b.orders[j].status) && SameKind(b.orders[i], b.orders[j])
    ensures i == j
  {
    ReachesKeepsOneLive(EMPTY, events, b);
  }
}
