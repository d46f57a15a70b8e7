/**
 Time-weighted orders when a cancellation may be overtaken.

 Cancelling reads the order's status and then writes by id alone
 (`cancel` in src/app/repositories/intent_repository.py); worker batches, expiries and other
 commands may commit in between.
 */
module TwapProtocol {
  import opened Outcomes
  import opened TradingSession
  import opened Intents
  import opened TwapPlan
  import opened TwapBook
  import TR = TwapRuns
  import TE = TwapEndings

  /** The book and the cancellations that have read but not yet written. */
  datatype World = World(book: Book, cancelling: multiset<IntentId>)

  datatype Step =
    | Do(event: TR.Event)
    | BeginCancel(id: IntentId, owner: UserId)
    | FinishCancel(id: IntentId)

  /** What the read lets through: a live order of the owner. */
  predicate MayCancel(b: Book, id: IntentId, owner: UserId) {
    id in b.orders && b.orders[id].owner == owner && IsLive(b.orders[id].status)
  }

  /** The write, with no condition on the status: it takes pending slices and follow-ups along. */
  function CancelWritten(b: Book, id: IntentId): Book {
    if id !in b.orders then b
    else Book(b.orders[id := b.orders[id].(status := Cancelled)],
              map k | k in b.slices :: if k.order == id then StopFollowup(Drop(b.slices[k])) else b.slices[k],
              b.notes)
  }

  ghost predicate Enabled(w: World, s: Step) {
    match s
    case Do(event) => TR.Enabled(w.book, event)
    case BeginCancel(_, _) => true
    case FinishCancel(id) => id in w.cancelling
  }

  ghost function Next(w: World, s: Step): World
    requires Enabled(w, s)
  {
    match s
    case Do(event) => w.(book := TR.Apply(w.book, event))
    case BeginCancel(id, owner) =>
      if MayCancel(w.book, id, owner) then w.(cancelling := w.cancelling + multiset{id}) else w
    case FinishCancel(id) => World(CancelWritten(w.book, id), w.cancelling - multiset{id})
  }

  ghost predicate Reaches(w: World, steps: seq<Step>, end: World)
    decreases |steps|
  {
    if steps == [] then w == end else Enabled(w, steps[0]) && Reaches(Next(w, steps[0]), steps[1..], end)
  }

  const START := World(Book(map[], map[], []), multiset{})

  /** Read and written in one go it is the whole command. */
  lemma UninterruptedCancelIsAtomic(b: Book, id: IntentId, owner: UserId)
    ensures TwapCancelled(b, id, owner) == if MayCancel(b, id, owner) then CancelWritten(b, id) else b
  {
  }

  // ---------------------------------------------------------------- what every interleaving keeps

  lemma WriteKeepsInvariant(b: Book, id: IntentId)
    requires TR.Invariant(b)
    ensures TR.Invariant(CancelWritten(b, id))
  {
    hide TR.Invariant;
    TR.DropsKeepInvariant(b, CancelWritten(b, id));
  }

  lemma StepKeepsInvariant(w: World, s: Step)
    requires TR.Invariant(w.book) && Enabled(w, s)
    ensures TR.Invariant(Next(w, s).book)
  {
    hide TR.Invariant, TR.Enabled, TR.Apply, CancelWritten;
    match s
    case Do(event) => TR.EventKeepsInvariant(w.book, event);
    case BeginCancel(_, _) =>
    case FinishCancel(id) => WriteKeepsInvariant(w.book, id);
  }

  lemma {:induction false} RunKeepsInvariant(w: World, steps: seq<Step>, end: World)
    requires TR.Invariant(w.book) && Reaches(w, steps, end)
    ensures TR.Invariant(end.book)
    decreases |steps|
  {
    hide TR.Invariant, Enabled, Next;
    if steps != [] {
      StepKeepsInvariant(w, steps[0]);
      RunKeepsInvariant(Next(w, steps[0]), steps[1..], end);
    }
  }

  lemma StartIsSound()
    ensures TR.Invariant(START.book)
  {
  }

  /**
   However late the writes of cancellations land: lots add up to the target, a triggered order
   has notified all of it with one message a slice, and a live order has work left and nothing
   dropped.
   */
  lemma LotsAreConservedInEveryInterleaving(steps: seq<Step>, w: World, id: IntentId)
    requires Reaches(START, steps, w) && id in w.book.orders
    ensures var b, o := w.book, w.book.orders[id];
            && TR.HasSlices(b.slices, id, o.count)
            && TR.LotsIn(b.slices, id, o.count, Pending) + TR.LotsIn(b.slices, id, o.count, Notified)
               + TR.LotsIn(b.slices, id, o.count, Dropped) == o.target
            && (o.status.Triggered? ==>
                  && TR.LotsIn(b.slices, id, o.count, Notified) == o.target
                  && forall i :: 1 <= i <= o.count ==> TR.Count(b.notes, TwapBook.Primary, Key(id, i)) == 1)
            && (IsLive(o.status) ==>
                  && (exists i :: 1 <= i <= o.count && b.slices[Key(id, i)].status.Pending?)
                  && forall i :: 1 <= i <= o.count ==> !b.slices[Key(id, i)].status.Dropped?)
  {
    StartIsSound();
    RunKeepsInvariant(START, steps, w);
    TR.LotsOfSoundBook(w.book, id);
  }

  /** And no slice is ever announced twice, early, or outside its order's session. */
  lemma NotifiedOnceInEveryInterleaving(steps: seq<Step>, w: World, n: nat)
    requires Reaches(START, steps, w) && n < |w.book.notes| && w.book.notes[n].kind.Primary?
    ensures var b, k := w.book, w.book.notes[n].key;
            && k in b.slices && k.order in b.orders && b.slices[k].status.Notified?
            && TR.Count(b.notes, TwapBook.Primary, k) == 1 && TR.Count(b.notes, PriceFollowup, k) <= 1
            && InSession(b.notes[n].sentAt) && DayOf(b.notes[n].sentAt) == b.orders[k.order].tradingDate
            && b.slices[k].at <= b.notes[n].sentAt
  {
    StartIsSound();
    RunKeepsInvariant(START, steps, w);
    TR.NoteOfSoundBook(w.book, n);
  }

  // ---------------------------------------------------------------- when an ended order is final

  ghost predicate Keeps(w: World, steps: seq<Step>, end: World, id: IntentId)
    requires id in w.book.orders
  {
    Reaches(w, steps, end) ==> id in end.book.orders && end.book.orders[id].status == w.book.orders[id].status
  }

  /** Ended, and nothing on its way would change that. */
  ghost predicate Settled(w: World, id: IntentId) {
    TE.Ended(w.book, id) && (id !in w.cancelling || w.book.orders[id].status.Cancelled?)
  }

  lemma StepKeepsSettled(w: World, s: Step, id: IntentId)
    requires Settled(w, id) && Enabled(w, s)
    ensures Settled(Next(w, s), id) && Next(w, s).book.orders[id].status == w.book.orders[id].status
  {
    hide TR.Enabled, TR.Apply;
    if s.Do? {
      TE.EventOnEnded(w.book, s.event, Key(id, 0));
    }
  }

  lemma {:induction false} SettledIsKept(w: World, steps: seq<Step>, end: World, id: IntentId)
    requires Settled(w, id)
    ensures Keeps(w, steps, end, id)
    decreases |steps|
  {
    hide Enabled, Next;
    if steps != [] && Reaches(w, steps, end) {
      StepKeepsSettled(w, steps[0], id);
      SettledIsKept(Next(w, steps[0]), steps[1..], end, id);
    }
  }

  lemma OpenCancelOverwrites(w: World, id: IntentId)
    requires TE.Ended(w.book, id) && !Settled(w, id)
    ensures Enabled(w, FinishCancel(id)) && !Keeps(w, [FinishCancel(id)], Next(w, FinishCancel(id)), id)
  {
    var end := Next(w, FinishCancel(id));
    assert [FinishCancel(id)][1..] == [];
    assert Reaches(end, [], end);
    assert Reaches(w, [FinishCancel(id)], end);
  }

  /**
   An ended order keeps its status through every continuation exactly when no cancellation of
   it is half done, or it is cancelled already.
   */
  lemma EndedIsFinalExactlyWithoutOpenCancel(w: World, id: IntentId)
    requires TE.Ended(w.book, id)
    ensures (forall steps, end :: Keeps(w, steps, end, id)) <==> id !in w.cancelling || w.book.orders[id].status.Cancelled?
  {
    hide Keeps;
    if Settled(w, id) {
      forall steps, end
        ensures Keeps(w, steps, end, id)
      {
        SettledIsKept(w, steps, end, id);
      }
    } else {
      OpenCancelOverwrites(w, id);
    }
  }

  // ---------------------------------------------------------------- a fully notified order, cancelled

  /** Both slices of the order are due, and announced with a price. */
  const PICKS := [Pick(Key(1, 1), Some(600.0)), Pick(Key(1, 2), Some(600.0))]

  const FINISHING := TR.DueWork(TE.TEN, TE.TEN, false, PICKS)

  /** The planned order with exactly its two slices, both due. */
  ghost predicate IsDueInFull(b: Book) {
    && TE.IsPlanned(b) && b.slices[Key(1, 2)].at <= TE.TEN
    && forall k :: k in b.slices && k.order == 1 ==> k == Key(1, 1) || k == Key(1, 2)
  }

  lemma PlanIsDueInFull()
    ensures IsDueInFull(TR.Apply(TR.EMPTY, TE.PLANNING))
  {
    hide PlanFor, WithSlices;
    TE.OrderIsPlanned();
    TE.DemandIsPlanned();
    var p := PlanFor(TE.DEMAND, TE.TEN).value;
    SecondIsDue();
    assert !SamePlanLive(TR.EMPTY, 7, "2330", Long, p.tradingDate);
    TR.AddedSlices(TR.EMPTY.slices, 1, p.slices);
  }

  lemma SecondIsDue()
    ensures PlanFor(TE.DEMAND, TE.TEN).Ok?
    ensures |PlanFor(TE.DEMAND, TE.TEN).value.slices| == 2 && PlanFor(TE.DEMAND, TE.TEN).value.slices[1].at <= TE.TEN
  {
    TE.DemandIsPlanned();
    hide Spread;
    SpreadAt(SESSION_START, 60, 2, 2, 1);
  }

  lemma LifecycleLeavesDue(b: Book)
    requires IsDueInFull(b)
    ensures IsDueInFull(TwapLifecycle(b, TE.TEN))
  {
    hide PhaseAt, DayOf, ExpiryCutoff;
    TE.TenIsInSession();
    TE.LifecycleKeepsPlanned(b);
  }

  lemma FirstIsNotified(b: Book)
    requires IsDueInFull(b)
    ensures var c := SliceNotified(b, PICKS[0], TE.TEN);
            && 1 in c.orders && c.orders[1] == b.orders[1]
            && c.slices.Keys == b.slices.Keys && c.slices[Key(1, 1)].status.Notified? && c.slices[Key(1, 2)] == b.slices[Key(1, 2)]
  {
    hide HasPending;
    var woken := Book(b.orders[1 := b.orders[1]],
                      b.slices[Key(1, 1) := NotifiedRow(b.slices[Key(1, 1)], Some(600.0), TE.TEN)],
                      b.notes + [SliceNote(TwapBook.Primary, Key(1, 1), TE.TEN)]);
    TE.SecondIsPending(woken, Key(1, 2));
  }

  lemma LastIsNotified(b: Book)
    requires 1 in b.orders && IsLive(b.orders[1].status) && Key(1, 1) in b.slices && Key(1, 2) in b.slices
    requires b.slices[Key(1, 1)].status.Notified?
    requires forall k :: k in b.slices && k.order == 1 ==> k == Key(1, 1) || k == Key(1, 2)
    ensures var c := SliceNotified(b, PICKS[1], TE.TEN); 1 in c.orders && c.orders[1].status.Triggered?
  {
  }

  lemma BatchTriggers(b: Book)
    requires IsDueInFull(b)
    ensures TR.Enabled(b, FINISHING)
    ensures var c := TR.Apply(b, FINISHING); 1 in c.orders && c.orders[1].status.Triggered?
  {
    hide TwapLifecycle, PhaseAt, SliceNotified;
    TE.TenIsInSession();
    LifecycleLeavesDue(b);
    var ready := TwapLifecycle(b, TE.TEN);
    assert DueBatch(ready, PICKS, TE.TEN);
    TE.BatchHolds(ready, PICKS, TE.TEN);
    FirstIsNotified(ready);
    var mid := SliceNotified(ready, PICKS[0], TE.TEN);
    assert PICKS[1..] == [PICKS[1]] && PICKS[1..][1..] == [];
    LastIsNotified(mid);
    assert AllNotified(mid, PICKS[1..], TE.TEN) == SliceNotified(mid, PICKS[1], TE.TEN);
  }

  /** The run: planned, cancellation read, both slices announced, cancellation written. */
  ghost predicate Overtakes(steps: seq<Step>, w: World, id: IntentId) {
    && Reaches(START, steps, w) && id in w.cancelling
    && id in w.book.orders && w.book.orders[id].status.Triggered?
    && Next(w, FinishCancel(id)).book.orders[id].status.Cancelled?
  }

  /** An order that has announced all its slices and triggered can still end up cancelled. */
  lemma CancelCanOverwriteCompletion()
    ensures exists steps, w, id :: Overtakes(steps, w, id)
  {
    hide TR.Enabled, TR.Apply;
    assert TR.Enabled(TR.EMPTY, TE.PLANNING) by { TE.IdIsFresh(); }
    var planned := World(TR.Apply(TR.EMPTY, TE.PLANNING), multiset{});
    PlanIsDueInFull();
    var read := World(planned.book, multiset{1});
    BatchTriggers(read.book);
    var done := World(TR.Apply(read.book, FINISHING), multiset{1});
    var steps := [Do(TE.PLANNING), BeginCancel(1, 7), Do(FINISHING)];
    assert Next(START, steps[0]) == planned && Next(planned, steps[1]) == read && Next(read, steps[2]) == done;
    assert Reaches(START, steps, done) by {
      hide Next;
      assert steps[1..] == [steps[1], steps[2]] && steps[1..][1..] == [steps[2]] && steps[1..][1..][1..] == [];
      assert Reaches(done, [], done);
      assert Reaches(read, [steps[2]], done);
      assert Reaches(planned, [steps[1], steps[2]], done);
    }
    assert Overtakes(steps, done, 1);
  }
}
