/**
 Conservation of lots over every run of planning, worker batches, follow-ups, expiry,
 cancellation and account disabling.
 */
module TwapRuns {
  import opened Outcomes
  import opened TradingSession
  import opened Intents
  import opened TwapPlan
  import opened TwapBook

  // ---------------------------------------------------------------- counting

  function Count(notes: seq<SliceNote>, kind: SliceNoteKind, k: Key): nat {
    if notes == [] then 0
    else
      var last := notes[|notes| - 1];
      Count(notes[..|notes| - 1], kind, k) + if last.kind == kind && last.key == k then 1 else 0
  }

  lemma CountAppends(notes: seq<SliceNote>, n: SliceNote, kind: SliceNoteKind, k: Key)
    ensures Count(notes + [n], kind, k) == Count(notes, kind, k) + if n.kind == kind && n.key == k then 1 else 0
  {
    assert (notes + [n])[..|notes|] == notes;
  }

  ghost predicate HasSlices(slices: map<Key, SliceRow>, id: IntentId, n: nat) {
    forall i :: 1 <= i <= n ==> Key(id, i) in slices
  }

  /** Lots planned in the first n slices. */
  ghost function Planned(slices: map<Key, SliceRow>, id: IntentId, n: nat): int
    requires HasSlices(slices, id, n)
  {
    if n == 0 then 0 else Planned(slices, id, n - 1) + slices[Key(id, n)].lots
  }

  /** Lots of the first n slices that are in the given state. */
  ghost function LotsIn(slices: map<Key, SliceRow>, id: IntentId, n: nat, s: SliceStatus): int
    requires HasSlices(slices, id, n)
  {
    if n == 0 then 0
    else LotsIn(slices, id, n - 1, s) + if slices[Key(id, n)].status == s then slices[Key(id, n)].lots else 0
  }

  lemma {:induction false} LotsSplit(slices: map<Key, SliceRow>, id: IntentId, n: nat)
    requires HasSlices(slices, id, n)
    ensures LotsIn(slices, id, n, Pending) + LotsIn(slices, id, n, Notified) + LotsIn(slices, id, n, Dropped)
            == Planned(slices, id, n)
  {
    if n > 0 {
      LotsSplit(slices, id, n - 1);
    }
  }

  lemma {:induction false} AllNotifiedLots(slices: map<Key, SliceRow>, id: IntentId, n: nat)
    requires HasSlices(slices, id, n) && forall i :: 1 <= i <= n ==> slices[Key(id, i)].status.Notified?
    ensures LotsIn(slices, id, n, Notified) == Planned(slices, id, n)
  {
    if n > 0 {
      AllNotifiedLots(slices, id, n - 1);
    }
  }

  lemma {:induction false} SameLots(a: map<Key, SliceRow>, b: map<Key, SliceRow>, id: IntentId, n: nat)
    requires HasSlices(a, id, n) && HasSlices(b, id, n)
    requires forall i :: 1 <= i <= n ==> a[Key(id, i)].lots == b[Key(id, i)].lots
    ensures Planned(a, id, n) == Planned(b, id, n)
  {
    if n > 0 {
      SameLots(a, b, id, n - 1);
    }
  }

  // ---------------------------------------------------------------- the invariant

  /** Every slice belongs to an order and lies in its range; the lots add up to the target. */
  ghost predicate OrderFits(b: Book, id: IntentId)
    requires id in b.orders
  {
    var o := b.orders[id];
    && o.count > 0 && HasSlices(b.slices, id, o.count) && Planned(b.slices, id, o.count) == o.target
    && (forall k :: k in b.slices && k.order == id ==>
          1 <= k.number <= o.count && b.slices[k].lots >= 1 && DayOf(b.slices[k].at) == o.tradingDate)
  }

  /** Live orders have work left and nothing dropped; triggered ones have everything notified. */
  ghost predicate SlicesFollowStatus(b: Book, id: IntentId)
    requires id in b.orders
  {
    && (IsLive(b.orders[id].status) ==>
          HasPending(b, id) && forall k :: k in b.slices && k.order == id ==> !b.slices[k].status.Dropped?)
    && (b.orders[id].status.Triggered? ==> forall k :: k in b.slices && k.order == id ==> b.slices[k].status.Notified?)
  }

  /** One primary notification exactly per notified slice; at most one follow-up, after it. */
  ghost predicate SliceFits(b: Book, k: Key)
    requires k in b.slices
  {
    var s := b.slices[k];
    && Count(b.notes, Primary, k) == (if s.status.Notified? then 1 else 0)
    && Count(b.notes, PriceFollowup, k) == (if s.followupSent then 1 else 0)
    && (s.followupSent || s.followupRequired ==> s.status.Notified? && s.price.None?)
    && !(s.followupSent && s.followupRequired)
    && s.attempts <= MAX_ATTEMPTS && (s.followupRequired ==> s.attempts < MAX_ATTEMPTS && s.nextFollowup.Some?)
    && (s.attempts > 0 ==> s.status.Notified?)
  }

  /** Each notification was sent in the session of the order's date, not before the slice was due. */
  ghost predicate NoteFits(b: Book, n: SliceNote) {
    && n.key in b.slices && n.key.order in b.orders
    && InSession(n.sentAt)
    && (n.kind.Primary? ==> DayOf(n.sentAt) == b.orders[n.key.order].tradingDate && b.slices[n.key].at <= n.sentAt)
  }

  ghost predicate Invariant(b: Book) {
    && (forall id :: id in b.orders ==> OrderFits(b, id) && SlicesFollowStatus(b, id))
    && (forall k :: k in b.slices ==> k.order in b.orders && SliceFits(b, k))
    && (forall i :: 0 <= i < |b.notes| ==> NoteFits(b, b.notes[i]))
  }

  // ---------------------------------------------------------------- steps that notify nothing

  /** Same orders and slices with the same plan, and no notification taken back. */
  ghost predicate SamePlans(a: Book, b: Book) {
    && b.orders.Keys == a.orders.Keys && b.slices.Keys == a.slices.Keys && a.notes <= b.notes
    && (forall id :: id in a.orders ==> b.orders[id] == a.orders[id].(status := b.orders[id].status))
    && (forall k :: k in a.slices ==> b.slices[k].lots == a.slices[k].lots && b.slices[k].at == a.slices[k].at)
  }

  lemma SamePlansKeepOrder(a: Book, b: Book, id: IntentId)
    requires SamePlans(a, b) && id in a.orders && OrderFits(a, id)
    ensures OrderFits(b, id)
  {
    SameLots(a.slices, b.slices, id, a.orders[id].count);
  }

  lemma SamePlansKeepNotes(a: Book, b: Book)
    requires SamePlans(a, b) && forall i :: 0 <= i < |a.notes| ==> NoteFits(a, a.notes[i])
    ensures forall i :: 0 <= i < |a.notes| ==> NoteFits(b, b.notes[i])
  {
    assert forall i :: 0 <= i < |a.notes| ==> b.notes[i] == a.notes[i];
  }

  lemma SamePlansKeepInvariant(a: Book, b: Book)
    requires Invariant(a) && SamePlans(a, b)
    requires forall id :: id in a.orders ==> SlicesFollowStatus(b, id)
    requires forall k :: k in a.slices ==> SliceFits(b, k)
    requires forall i :: |a.notes| <= i < |b.notes| ==> NoteFits(b, b.notes[i])
    ensures Invariant(b)
  {
    hide OrderFits, SlicesFollowStatus, SliceFits, NoteFits, SamePlans;
    assert b.orders.Keys == a.orders.Keys && b.slices.Keys == a.slices.Keys by { SameKeys(a, b); }
    forall id | id in b.orders
      ensures OrderFits(b, id)
    {
      SamePlansKeepOrder(a, b, id);
    }
    SamePlansKeepNotes(a, b);
  }

  lemma SameKeys(a: Book, b: Book)
    requires SamePlans(a, b)
    ensures b.orders.Keys == a.orders.Keys && b.slices.Keys == a.slices.Keys && |a.notes| <= |b.notes|
  {
  }

  /** Dropping or stopping follow-ups never touches what has been sent. */
  lemma DroppingKeepsSlice(a: Book, b: Book, k: Key)
    requires k in a.slices && k in b.slices && SliceFits(a, k) && b.notes == a.notes
    requires b.slices[k] == a.slices[k] || b.slices[k] == Drop(a.slices[k]) || b.slices[k] == StopFollowup(Drop(a.slices[k]))
    ensures SliceFits(b, k)
  {
  }

  /** Slices of orders that stay live are as they were; of others, pending ones may be dropped. */
  ghost predicate DropsOfEnded(a: Book, b: Book) {
    && b.notes == a.notes
    && (forall id :: id in a.orders && id in b.orders ==>
          (b.orders[id] != a.orders[id] ==> !IsLive(b.orders[id].status) && !b.orders[id].status.Triggered?))
    && (forall k :: k in a.slices && k in b.slices && k.order in b.orders ==>
          || b.slices[k] == a.slices[k]
          || (!IsLive(b.orders[k.order].status) && !b.orders[k.order].status.Triggered?
              && (b.slices[k] == Drop(a.slices[k]) || b.slices[k] == StopFollowup(Drop(a.slices[k])))))
  }

  lemma DropsFollowStatus(a: Book, b: Book, id: IntentId)
    requires SamePlans(a, b) && DropsOfEnded(a, b) && id in a.orders && SlicesFollowStatus(a, id)
    ensures SlicesFollowStatus(b, id)
  {
    hide Drop, StopFollowup;
    if IsLive(b.orders[id].status) {
      var k :| k in a.slices && k.order == id && a.slices[k].status.Pending?;
      assert b.slices[k] == a.slices[k];
    }
  }

  lemma DropsKeepInvariant(a: Book, b: Book)
    requires Invariant(a) && SamePlans(a, b) && DropsOfEnded(a, b)
    ensures Invariant(b)
  {
    hide SliceFits, OrderFits, NoteFits, SlicesFollowStatus, Drop, StopFollowup;
    forall id | id in a.orders
      ensures SlicesFollowStatus(b, id)
    {
      DropsFollowStatus(a, b, id);
    }
    forall k | k in a.slices
      ensures SliceFits(b, k)
    {
      DroppingKeepsSlice(a, b, k);
    }
    SamePlansKeepInvariant(a, b);
  }

  lemma ExpireKeepsInvariant(b: Book, cutoff: Day)
    requires Invariant(b)
    ensures Invariant(TwapExpired(b, cutoff))
  {
    hide Invariant;
    DropsKeepInvariant(b, TwapExpired(b, cutoff));
  }

  /** Changing only live statuses, to a live one or to a stop other than triggered. */
  lemma StatusesKeepInvariant(b: Book, after: Book)
    requires Invariant(b) && SamePlans(b, after) && after.slices == b.slices && after.notes == b.notes
    requires forall id :: id in b.orders ==>
               && (IsLive(after.orders[id].status) ==> IsLive(b.orders[id].status))
               && (after.orders[id].status.Triggered? ==> b.orders[id].status.Triggered?)
    ensures Invariant(after)
  {
    hide OrderFits, NoteFits;
    SamePlansKeepInvariant(b, after);
  }

  lemma ActivateKeepsInvariant(b: Book, day: Day)
    requires Invariant(b)
    ensures Invariant(TwapActivated(b, day))
  {
    hide Invariant;
    StatusesKeepInvariant(b, TwapActivated(b, day));
  }

  lemma DisableKeepsInvariant(b: Book, owner: UserId)
    requires Invariant(b)
    ensures Invariant(TwapDisabled(b, owner))
  {
    hide Invariant;
    StatusesKeepInvariant(b, TwapDisabled(b, owner));
  }

  lemma LifecycleKeepsInvariant(b: Book, now: Instant)
    requires Invariant(b)
    ensures Invariant(TwapLifecycle(b, now))
  {
    hide Invariant, TwapExpired, TwapActivated;
    ExpireKeepsInvariant(b, ExpiryCutoff(now));
    ActivateKeepsInvariant(TwapExpired(b, ExpiryCutoff(now)), DayOf(now));
  }

  lemma CancelKeepsInvariant(b: Book, id: IntentId, owner: UserId)
    requires Invariant(b)
    ensures Invariant(TwapCancelled(b, id, owner))
  {
    hide Invariant;
    DropsKeepInvariant(b, TwapCancelled(b, id, owner));
  }

  // ---------------------------------------------------------------- due slices

  /** A pending slice of a live order, whose day and hour have come. */
  ghost predicate Ripe(b: Book, k: Key, now: Instant) {
    IsDue(b, k, now) && DayOf(now) == b.orders[k.order].tradingDate
  }

  lemma NotifyKeepsSlices(b: Book, p: Pick, now: Instant)
    requires Invariant(b) && Ripe(b, p.key, now)
    ensures forall k :: k in b.slices ==> SliceFits(SliceNotified(b, p, now), k)
  {
    hide OrderFits, SlicesFollowStatus, NoteFits, HasPending, Count;
    var after := SliceNotified(b, p, now);
    forall k | k in b.slices
      ensures SliceFits(after, k)
    {
      CountAppends(b.notes, SliceNote(Primary, p.key, now), Primary, k);
      CountAppends(b.notes, SliceNote(Primary, p.key, now), PriceFollowup, k);
    }
  }

  lemma NotifyFollowsStatus(b: Book, p: Pick, now: Instant)
    requires Invariant(b) && Ripe(b, p.key, now)
    ensures forall id :: id in b.orders ==> SlicesFollowStatus(SliceNotified(b, p, now), id)
  {
    hide OrderFits, SliceFits, NoteFits;
    var after := SliceNotified(b, p, now);
    forall id | id in b.orders
      ensures SlicesFollowStatus(after, id)
    {
      if id != p.key.order {
        if IsLive(b.orders[id].status) {
          var k :| k in b.slices && k.order == id && b.slices[k].status.Pending?;
          assert after.slices[k] == b.slices[k];
        }
      } else if HasPending(after, id) {
        assert IsLive(after.orders[id].status);
      } else {
        forall k | k in after.slices && k.order == id
          ensures after.slices[k].status.Notified?
        {
          assert !after.slices[k].status.Pending?;
        }
      }
    }
  }

  lemma NotifySamePlans(b: Book, p: Pick, now: Instant)
    requires p.key in b.slices && p.key.order in b.orders
    ensures SamePlans(b, SliceNotified(b, p, now))
    ensures SliceNotified(b, p, now).notes == b.notes + [SliceNote(Primary, p.key, now)]
  {
    hide HasPending;
  }

  lemma OthersStayRipe(b: Book, p: Pick, now: Instant, k: Key)
    requires Ripe(b, p.key, now) && Ripe(b, k, now) && k != p.key
    ensures Ripe(SliceNotified(b, p, now), k, now)
  {
    hide DayOf;
    var after := SliceNotified(b, p, now);
    assert after.slices[k] == b.slices[k];
    assert k.order == p.key.order ==> HasPending(after, k.order);
  }

  lemma PrimaryNoteFits(b: Book, k: Key, now: Instant)
    requires k in b.slices && k.order in b.orders && InSession(now)
    requires DayOf(now) == b.orders[k.order].tradingDate && b.slices[k].at <= now
    ensures NoteFits(b, SliceNote(Primary, k, now))
  {
  }

  /** Notifying one slice keeps the invariant, and an order with work left stays live. */
  lemma NotifyKeepsInvariant(b: Book, p: Pick, now: Instant)
    requires Invariant(b) && Ripe(b, p.key, now) && InSession(now)
    ensures Invariant(SliceNotified(b, p, now))
    ensures forall k :: Ripe(b, k, now) && k != p.key ==> Ripe(SliceNotified(b, p, now), k, now)
  {
    hide Invariant, SliceFits, SlicesFollowStatus, NoteFits, InSession, DayOf, SliceNotified;
    var after := SliceNotified(b, p, now);
    NotifyKeepsSlices(b, p, now);
    NotifyFollowsStatus(b, p, now);
    NotifySamePlans(b, p, now);
    PrimaryNoteFits(after, p.key, now);
    SamePlansKeepInvariant(b, after);
    hide IsDue, SamePlans;
    forall k | Ripe(b, k, now) && k != p.key
      ensures Ripe(after, k, now)
    {
      OthersStayRipe(b, p, now, k);
    }
  }

  ghost predicate RipeBatch(b: Book, picks: seq<Pick>, now: Instant) {
    DistinctPicks(picks) && forall i :: 0 <= i < |picks| ==> Ripe(b, picks[i].key, now)
  }

  lemma {:induction false} BatchKeepsInvariant(b: Book, picks: seq<Pick>, now: Instant)
    requires Invariant(b) && Holds(b, picks) && RipeBatch(b, picks, now) && InSession(now)
    ensures Invariant(AllNotified(b, picks, now))
    decreases |picks|
  {
    hide Invariant, Ripe, SliceNotified, InSession;
    if picks != [] {
      NotifyKeepsInvariant(b, picks[0], now);
      var after := SliceNotified(b, picks[0], now);
      assert RipeBatch(after, picks[1..], now);
      RipeHolds(after, picks[1..], now);
      BatchKeepsInvariant(after, picks[1..], now);
    }
  }

  lemma RipeHolds(b: Book, picks: seq<Pick>, now: Instant)
    requires RipeBatch(b, picks, now)
    ensures Holds(b, picks)
  {
  }

  /** What is live after the lifecycle update has not expired. */
  lemma SurvivorsAreCurrent(b: Book, now: Instant, id: IntentId)
    requires id in TwapLifecycle(b, now).orders && IsLive(TwapLifecycle(b, now).orders[id].status)
    ensures TwapLifecycle(b, now).orders[id].tradingDate > ExpiryCutoff(now)
  {
    hide ExpiryCutoff, DayOf, PhaseAt;
  }

  lemma SliceIsOfOrderDay(b: Book, k: Key)
    requires Invariant(b) && k in b.slices
    ensures k.order in b.orders && DayOf(b.slices[k].at) == b.orders[k.order].tradingDate
  {
    hide SliceFits, SlicesFollowStatus, NoteFits, DayOf;
    assert OrderFits(b, k.order);
  }

  /** A due slice of an order that survived the lifecycle update is due today. */
  lemma DueIsRipe(b: Book, now: Instant, later: Instant, k: Key)
    requires Invariant(b) && now <= later && InSession(now) && IsDue(TwapLifecycle(b, later), k, now)
    ensures Ripe(TwapLifecycle(b, later), k, now)
  {
    hide TwapLifecycle, Invariant;
    var ready := TwapLifecycle(b, later);
    LifecycleKeepsInvariant(b, later);
    SurvivorsAreCurrent(b, later, k.order);
    SliceIsOfOrderDay(ready, k);
    DatesAreMonotone(now, later);
    DatesAreMonotone(ready.slices[k].at, now);
    assert ExpiryCutoff(now) == DayOf(now) - 1;
    hide DayOf, ExpiryCutoff;
  }

  lemma DuePassKeepsInvariant(b: Book, now: Instant, later: Instant, halted: bool, picks: seq<Pick>)
    requires Invariant(b) && now <= later
    requires WorkerRuns(now, halted) ==> DueBatch(TwapLifecycle(b, later), picks, now)
    ensures Invariant(DuePass(b, now, later, halted, picks))
  {
    hide Invariant, TwapLifecycle, AllNotified, InSession, PhaseAt, Ripe;
    LifecycleKeepsInvariant(b, later);
    if WorkerRuns(now, halted) {
      var ready := TwapLifecycle(b, later);
      TradingDateFollowsCutoff(now);
      assert RipeBatch(ready, picks, now) by {
        forall i | 0 <= i < |picks|
          ensures Ripe(ready, picks[i].key, now)
        {
          DueIsRipe(b, now, later, picks[i].key);
        }
      }
      BatchKeepsInvariant(ready, picks, now);
    }
  }

  // ---------------------------------------------------------------- follow-ups

  /** A slice that still wants its price. */
  ghost predicate Waiting(b: Book, k: Key) {
    k in b.slices && k.order in b.orders && b.slices[k].followupRequired
  }

  lemma FollowupKeepsInvariant(b: Book, p: Pick, now: Instant)
    requires Invariant(b) && Waiting(b, p.key) && InSession(now)
    ensures var after := FollowedUp(b, p, now);
            Invariant(after) && forall k :: Waiting(b, k) && k != p.key ==> Waiting(after, k)
  {
    hide OrderFits, NoteFits, Count, InSession;
    var after := FollowedUp(b, p, now);
    assert SliceFits(b, p.key);
    assert SamePlans(b, after);
    forall k | k in b.slices
      ensures SliceFits(after, k)
    {
      CountAppends(b.notes, SliceNote(PriceFollowup, p.key, now), Primary, k);
      CountAppends(b.notes, SliceNote(PriceFollowup, p.key, now), PriceFollowup, k);
    }
    forall id | id in b.orders
      ensures SlicesFollowStatus(after, id)
    {
      SameStatuses(b, after, id);
    }
    forall i | |b.notes| <= i < |after.notes|
      ensures NoteFits(after, after.notes[i])
    {
      FollowupNoteFits(after, p.key, now);
    }
    SamePlansKeepInvariant(b, after);
  }

  lemma SameStatuses(a: Book, b: Book, id: IntentId)
    requires id in a.orders && SlicesFollowStatus(a, id) && b.orders == a.orders && b.slices.Keys == a.slices.Keys
    requires forall k :: k in a.slices ==> b.slices[k].status == a.slices[k].status
    ensures SlicesFollowStatus(b, id)
  {
    if IsLive(a.orders[id].status) {
      var k :| k in a.slices && k.order == id && a.slices[k].status.Pending?;
      assert b.slices[k].status.Pending?;
    }
  }

  lemma FollowupNoteFits(b: Book, k: Key, now: Instant)
    requires k in b.slices && k.order in b.orders && InSession(now)
    ensures NoteFits(b, SliceNote(PriceFollowup, k, now))
  {
  }

  ghost predicate WaitingBatch(b: Book, picks: seq<Pick>) {
    DistinctPicks(picks) && forall i :: 0 <= i < |picks| ==> Waiting(b, picks[i].key)
  }

  lemma WaitingHolds(b: Book, picks: seq<Pick>)
    requires WaitingBatch(b, picks)
    ensures Holds(b, picks)
  {
  }

  lemma {:induction false} FollowupsKeepInvariant(b: Book, picks: seq<Pick>, now: Instant)
    requires Invariant(b) && Holds(b, picks) && WaitingBatch(b, picks) && InSession(now)
    ensures Invariant(AllFollowedUp(b, picks, now))
    decreases |picks|
  {
    hide Invariant, FollowedUp, InSession, Waiting;
    if picks != [] {
      FollowupKeepsInvariant(b, picks[0], now);
      var after := FollowedUp(b, picks[0], now);
      assert WaitingBatch(after, picks[1..]);
      WaitingHolds(after, picks[1..]);
      FollowupsKeepInvariant(after, picks[1..], now);
    }
  }

  lemma FollowupPassKeepsInvariant(b: Book, now: Instant, later: Instant, halted: bool, picks: seq<Pick>)
    requires Invariant(b)
    requires WorkerRuns(now, halted) ==> FollowupBatch(TwapLifecycle(b, later), picks, now)
    ensures Invariant(FollowupPass(b, now, later, halted, picks))
  {
    hide Invariant, TwapLifecycle, AllFollowedUp, InSession, PhaseAt;
    LifecycleKeepsInvariant(b, later);
    if WorkerRuns(now, halted) {
      TradingDateFollowsCutoff(now);
      FollowupsKeepInvariant(TwapLifecycle(b, later), picks, now);
    }
  }

  // ---------------------------------------------------------------- creating

  lemma {:induction false} AddedSlices(slices: map<Key, SliceRow>, id: IntentId, planned: seq<Slice>)
    requires forall i :: 0 <= i < |planned| ==> planned[i].number == i + 1
    ensures var after := WithSlices(slices, id, planned);
            && (forall k :: k in after <==> k in slices || (k.order == id && 1 <= k.number <= |planned|))
            && (forall k :: k in slices && k.order != id ==> after[k] == slices[k])
            && (forall i :: 1 <= i <= |planned| ==> after[Key(id, i)] == NewSlice(planned[i - 1]))
  {
    if planned != [] {
      var n := |planned| - 1;
      AddedSlices(slices, id, planned[..n]);
      var before, after := WithSlices(slices, id, planned[..n]), WithSlices(slices, id, planned);
      assert after == before[Key(id, n + 1) := NewSlice(planned[n])];
      forall i | 1 <= i <= |planned|
        ensures after[Key(id, i)] == NewSlice(planned[i - 1])
      {
        if i <= n {
          assert planned[..n][i - 1] == planned[i - 1];
        }
      }
    }
  }

  lemma {:induction false} PlannedTotal(slices: map<Key, SliceRow>, id: IntentId, planned: seq<Slice>, n: nat)
    requires n <= |planned| && HasSlices(slices, id, n)
    requires forall i :: 1 <= i <= n ==> slices[Key(id, i)].lots == planned[i - 1].lots
    ensures Planned(slices, id, n) == TotalLots(planned[..n])
  {
    if n > 0 {
      PlannedTotal(slices, id, planned, n - 1);
      assert planned[..n][..n - 1] == planned[..n - 1];
    }
  }

  lemma {:induction false} NothingSentYet(b: Book, notes: seq<SliceNote>, kind: SliceNoteKind, k: Key)
    requires forall i :: 0 <= i < |notes| ==> notes[i].key in b.slices
    requires k !in b.slices
    ensures Count(notes, kind, k) == 0
  {
    if notes != [] {
      NothingSentYet(b, notes[..|notes| - 1], kind, k);
    }
  }

  lemma SliceDay(p: Plan, planner: Instant, i: nat)
    requires SoundPlan(p, planner) && i < |p.slices|
    ensures DayOf(p.slices[i].at) == p.tradingDate
  {
    var at := p.slices[i].at;
    assert p.tradingDate * DAY <= at < (p.tradingDate + 1) * DAY;
  }

  /** Each stored slice of a new order is the planned one of its number. */
  lemma NewSlicesAsPlanned(slices: map<Key, SliceRow>, id: IntentId, p: Plan, planner: Instant, k: Key)
    requires SoundPlan(p, planner) && forall other :: other in slices ==> other.order != id
    requires k in WithSlices(slices, id, p.slices) && k.order == id
    ensures 1 <= k.number <= |p.slices|
    ensures WithSlices(slices, id, p.slices)[k] == NewSlice(p.slices[k.number - 1])
    ensures p.slices[k.number - 1].lots >= 1 && DayOf(p.slices[k.number - 1].at) == p.tradingDate
  {
    PlanNumbers(p, planner);
    AddedSlices(slices, id, p.slices);
    assert k == Key(id, k.number);
    SliceDay(p, planner, k.number - 1);
  }

  /** A new order arrives with all its slices pending and its lots adding up. */
  lemma NewOrderFits(b: Book, id: IntentId, o: Order, p: Plan, planner: Instant)
    requires SoundPlan(p, planner) && o.count == |p.slices| && o.target == p.target && o.tradingDate == p.tradingDate
    requires forall k :: k in b.slices ==> k.order != id
    requires IsLive(o.status)
    ensures var after := Book(b.orders[id := o], WithSlices(b.slices, id, p.slices), b.notes);
            OrderFits(after, id) && SlicesFollowStatus(after, id)
  {
    hide WithSlices, DayOf;
    var after := Book(b.orders[id := o], WithSlices(b.slices, id, p.slices), b.notes);
    PlanNumbers(p, planner);
    PlanTotals(p, planner);
    hide SoundPlan;
    AddedSlices(b.slices, id, p.slices);
    forall k | k in after.slices && k.order == id
      ensures 1 <= k.number <= o.count && after.slices[k].lots >= 1 && DayOf(after.slices[k].at) == o.tradingDate
      ensures after.slices[k].status.Pending?
    {
      NewSlicesAsPlanned(b.slices, id, p, planner, k);
    }
    assert HasSlices(after.slices, id, o.count);
    PlannedTotal(after.slices, id, p.slices, |p.slices|);
    assert p.slices[..|p.slices|] == p.slices;
    assert after.slices[Key(id, 1)].status.Pending?;
  }

  lemma PlanTotals(p: Plan, planner: Instant)
    requires SoundPlan(p, planner)
    ensures |p.slices| >= 2 && TotalLots(p.slices) == p.target
  {
  }

  lemma OtherOrderFits(b: Book, after: Book, other: IntentId)
    requires other in b.orders && other in after.orders && after.orders[other] == b.orders[other]
    requires OrderFits(b, other) && SlicesFollowStatus(b, other)
    requires forall k :: k in b.slices && k.order == other ==> k in after.slices && after.slices[k] == b.slices[k]
    requires forall k :: k in after.slices && k.order == other ==> k in b.slices
    ensures OrderFits(after, other) && SlicesFollowStatus(after, other)
  {
    assert HasSlices(after.slices, other, b.orders[other].count);
    SameLots(b.slices, after.slices, other, b.orders[other].count);
    if IsLive(b.orders[other].status) {
      var k :| k in b.slices && k.order == other && b.slices[k].status.Pending?;
      assert k in after.slices && after.slices[k].status.Pending?;
    }
  }

  lemma NewSliceFits(b: Book, after: Book, k: Key, planned: Slice)
    requires k !in b.slices && k in after.slices && after.notes == b.notes && after.slices[k] == NewSlice(planned)
    requires forall i :: 0 <= i < |b.notes| ==> b.notes[i].key in b.slices
    ensures SliceFits(after, k)
  {
    NothingSentYet(b, b.notes, Primary, k);
    NothingSentYet(b, b.notes, PriceFollowup, k);
  }

  lemma UntouchedSliceFits(a: Book, b: Book, k: Key)
    requires k in a.slices && k in b.slices && b.slices[k] == a.slices[k] && b.notes == a.notes && SliceFits(a, k)
    ensures SliceFits(b, k)
  {
  }

  lemma NotesStillFit(b: Book, after: Book)
    requires forall i :: 0 <= i < |b.notes| ==> NoteFits(b, b.notes[i])
    requires after.notes == b.notes
    requires forall k :: k in b.slices ==> k in after.slices && after.slices[k] == b.slices[k]
    requires forall id :: id in b.orders ==> id in after.orders && after.orders[id] == b.orders[id]
    ensures forall i :: 0 <= i < |after.notes| ==> NoteFits(after, after.notes[i])
  {
    hide InSession, DayOf;
  }

  lemma PlanNumbers(p: Plan, planner: Instant)
    requires SoundPlan(p, planner)
    ensures forall i :: 0 <= i < |p.slices| ==> p.slices[i].number == i + 1
  {
  }

  lemma CreateKeepsInvariant(b: Book, id: IntentId, owner: UserId, symbol: Symbol, side: Side, p: Plan, planner: Instant)
    requires Invariant(b) && id !in b.orders && SoundPlan(p, planner)
    ensures var r := TwapCreated(b, id, owner, symbol, side, p); r.Ok? ==> Invariant(r.value)
  {
    hide SoundPlan, WithSlices, OrderFits, SlicesFollowStatus, SliceFits, SamePlanLive, NoteFits;
    PlanNumbers(p, planner);
    AddedSlices(b.slices, id, p.slices);
    NewOrderFits(b, id, NewOrder(owner, symbol, side, p), p, planner);
    var after := Book(b.orders[id := NewOrder(owner, symbol, side, p)], WithSlices(b.slices, id, p.slices), b.notes);
    NotesStillFit(b, after);
    forall other | other in b.orders
      ensures OrderFits(after, other) && SlicesFollowStatus(after, other)
    {
      OtherOrderFits(b, after, other);
    }
    assert forall i :: 0 <= i < |b.notes| ==> b.notes[i].key in b.slices by { NotesHaveSlices(b); }
    forall k | k in after.slices
      ensures k.order in after.orders && SliceFits(after, k)
    {
      if k.order == id {
        assert k == Key(id, k.number);
        NewSliceFits(b, after, k, p.slices[k.number - 1]);
      } else {
        UntouchedSliceFits(b, after, k);
      }
    }
  }

  lemma NotesHaveSlices(b: Book)
    requires Invariant(b)
    ensures forall i :: 0 <= i < |b.notes| ==> b.notes[i].key in b.slices
  {
  }

  // ---------------------------------------------------------------- runs

  datatype Event =
    | Confirm(id: IntentId, owner: UserId, symbol: Symbol, side: Side, request: Request, now: Instant)
    | Lifecycle(now: Instant)
    | DueWork(now: Instant, later: Instant, halted: bool, picks: seq<Pick>)
    | FollowupWork(now: Instant, later: Instant, halted: bool, picks: seq<Pick>)
    | Cancel(id: IntentId, owner: UserId)
    | DisableOwner(owner: UserId)

  /** Ids are fresh and a batch picks rows its query could return. */
  ghost predicate Enabled(b: Book, e: Event) {
    match e
    case Confirm(id, _, _, _, _, _) => id !in b.orders
    case DueWork(now, later, halted, picks) =>
      now <= later && (WorkerRuns(now, halted) ==> DueBatch(TwapLifecycle(b, later), picks, now))
    case FollowupWork(now, later, halted, picks) =>
      now <= later && (WorkerRuns(now, halted) ==> FollowupBatch(TwapLifecycle(b, later), picks, now))
    case _ => true
  }

  ghost function Apply(b: Book, e: Event): Book
    requires Enabled(b, e)
  {
    match e
    case Confirm(id, owner, symbol, side, request, now) =>
      var plan := PlanFor(request, now);
      if plan.Err? then b
      else
        var r := TwapCreated(b, id, owner, symbol, side, plan.value);
        if r.Ok? then r.value else b
    case Lifecycle(now) => TwapLifecycle(b, now)
    case DueWork(now, later, halted, picks) => DuePass(b, now, later, halted, picks)
    case FollowupWork(now, later, halted, picks) => FollowupPass(b, now, later, halted, picks)
    case Cancel(id, owner) => TwapCancelled(b, id, owner)
    case DisableOwner(owner) => TwapDisabled(b, owner)
  }

  ghost predicate Reaches(b: Book, events: seq<Event>, c: Book)
    decreases |events|
  {
    if events == [] then b == c else Enabled(b, events[0]) && Reaches(Apply(b, events[0]), events[1..], c)
  }

  lemma EventKeepsInvariant(b: Book, e: Event)
    requires Invariant(b) && Enabled(b, e)
    ensures Invariant(Apply(b, e))
  {
    hide Invariant, DuePass, FollowupPass, TwapLifecycle, TwapCancelled, TwapDisabled, TwapCreated, PlanFor;
    match e
    case Confirm(id, owner, symbol, side, request, now) =>
      if PlanFor(request, now).Ok? {
        AcceptedPlanIsSound(request, now);
        CreateKeepsInvariant(b, id, owner, symbol, side, PlanFor(request, now).value, now);
      }
    case Lifecycle(now) => LifecycleKeepsInvariant(b, now);
    case DueWork(now, later, halted, picks) => DuePassKeepsInvariant(b, now, later, halted, picks);
    case FollowupWork(now, later, halted, picks) => FollowupPassKeepsInvariant(b, now, later, halted, picks);
    case Cancel(id, owner) => CancelKeepsInvariant(b, id, owner);
    case DisableOwner(owner) => DisableKeepsInvariant(b, owner);
  }

  lemma {:induction false} ReachesKeepsInvariant(b: Book, events: seq<Event>, c: Book)
    requires Invariant(b) && Reaches(b, events, c)
    ensures Invariant(c)
    decreases |events|
  {
    hide Invariant, Enabled, Apply;
    if events != [] {
      EventKeepsInvariant(b, events[0]);
      ReachesKeepsInvariant(Apply(b, events[0]), events[1..], c);
    }
  }

  const EMPTY := Book(map[], map[], [])

  lemma LotsOfSoundBook(b: Book, id: IntentId)
    requires Invariant(b) && id in b.orders
    ensures var o := b.orders[id];
            && HasSlices(b.slices, id, o.count)
            && LotsIn(b.slices, id, o.count, Pending) + LotsIn(b.slices, id, o.count, Notified)
               + LotsIn(b.slices, id, o.count, Dropped) == o.target
            && (o.status.Triggered? ==>
                  && LotsIn(b.slices, id, o.count, Notified) == o.target
                  && forall i :: 1 <= i <= o.count ==> Count(b.notes, Primary, Key(id, i)) == 1)
            && (IsLive(o.status) ==>
                  && (exists i :: 1 <= i <= o.count && b.slices[Key(id, i)].status.Pending?)
                  && forall i :: 1 <= i <= o.count ==> !b.slices[Key(id, i)].status.Dropped?)
  {
    var o := b.orders[id];
    assert OrderFits(b, id) && SlicesFollowStatus(b, id);
    LotsSplit(b.slices, id, o.count);
    if o.status.Triggered? {
      AllNotifiedLots(b.slices, id, o.count);
      forall i | 1 <= i <= o.count
        ensures Count(b.notes, Primary, Key(id, i)) == 1
      {
        assert SliceFits(b, Key(id, i));
      }
    }
    if IsLive(o.status) {
      var k :| k in b.slices && k.order == id && b.slices[k].status.Pending?;
      assert k == Key(id, k.number);
    }
  }

  lemma NoteOfSoundBook(b: Book, n: nat)
    requires Invariant(b) && n < |b.notes| && b.notes[n].kind.Primary?
    ensures var k := b.notes[n].key;
            && k in b.slices && k.order in b.orders && b.slices[k].status.Notified?
            && Count(b.notes, Primary, k) == 1 && Count(b.notes, PriceFollowup, k) <= 1
            && InSession(b.notes[n].sentAt) && DayOf(b.notes[n].sentAt) == b.orders[k.order].tradingDate
            && b.slices[k].at <= b.notes[n].sentAt
  {
    hide OrderFits, SlicesFollowStatus;
    var k := b.notes[n].key;
    assert NoteFits(b, b.notes[n]);
    assert SliceFits(b, k);
    CountsPresent(b.notes, n);
  }

  /**
   In every reachable book, for every order: pending, notified and dropped lots add up to
   the target; a triggered order has notified exactly its target, one notification a slice;
   a live order has a pending slice and none dropped.
   */
  lemma LotsAreConserved(events: seq<Event>, b: Book, id: IntentId)
    requires Reaches(EMPTY, events, b) && id in b.orders
    ensures var o := b.orders[id];
            && HasSlices(b.slices, id, o.count)
            && LotsIn(b.slices, id, o.count, Pending) + LotsIn(b.slices, id, o.count, Notified)
               + LotsIn(b.slices, id, o.count, Dropped) == o.target
            && (o.status.Triggered? ==>
                  && LotsIn(b.slices, id, o.count, Notified) == o.target
                  && forall i :: 1 <= i <= o.count ==> Count(b.notes, Primary, Key(id, i)) == 1)
            && (IsLive(o.status) ==>
                  && (exists i :: 1 <= i <= o.count && b.slices[Key(id, i)].status.Pending?)
                  && forall i :: 1 <= i <= o.count ==> !b.slices[Key(id, i)].status.Dropped?)
  {
    ReachesKeepsInvariant(EMPTY, events, b);
    LotsOfSoundBook(b, id);
  }

  /** Each slice is notified at most once, in its own day's session and never early. */
  lemma NotifiedOnceAndInTime(events: seq<Event>, b: Book, n: nat)
    requires Reaches(EMPTY, events, b) && n < |b.notes| && b.notes[n].kind.Primary?
    ensures var k := b.notes[n].key;
            && k in b.slices && k.order in b.orders && b.slices[k].status.Notified?
            && Count(b.notes, Primary, k) == 1 && Count(b.notes, PriceFollowup, k) <= 1
            && InSession(b.notes[n].sentAt) && DayOf(b.notes[n].sentAt) == b.orders[k.order].tradingDate
            && b.slices[k].at <= b.notes[n].sentAt
  {
    ReachesKeepsInvariant(EMPTY, events, b);
    NoteOfSoundBook(b, n);
  }

  lemma {:induction false} CountsPresent(notes: seq<SliceNote>, n: nat)
    requires n < |notes|
    ensures Count(notes, notes[n].kind, notes[n].key) > 0
  {
    var last := |notes| - 1;
    if n < last {
      CountsPresent(notes[..last], n);
    }
  }
}
