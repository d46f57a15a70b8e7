/**
 The per-user memo of responses (src/app/services/idempotency.py,
 src/app/repositories/idempotency_repository.py), for requests one after another.
 */
module Idempotency {
  import opened Outcomes

  const TTL := 24 * 3_600 * 1_000_000

  datatype Slot = Slot(user: nat, key: string)

  /** `hash` is the fingerprint of the request payload. */
  datatype Record = Record(hash: nat, snapshot: string, expiresAt: int)

  type Store = map<Slot, Record>

  /**
   How calling the command ends: done, with its response recorded; done and committed, but
   followed by a failure before the record was; or an exception that may have rolled back.
   */
  datatype Outcome = Done(snapshot: string) | Unrecorded | Raised(rolledBack: bool)

  datatype Response = Answer(snapshot: string) | Conflict | Failure

  datatype Request = Request(slot: Slot, hash: nat, now: int, outcome: Outcome)

  predicate IsFresh(s: Store, slot: Slot, now: int) {
    slot in s && s[slot].expiresAt > now
  }

  function Respond(s: Store, r: Request): Response {
    if IsFresh(s, r.slot, r.now) then
      if s[r.slot].hash != r.hash then Conflict else Answer(s[r.slot].snapshot)
    else if r.outcome.Done? then Answer(r.outcome.snapshot)
    else Failure
  }

  /** The command ran to completion for this request. */
  predicate Completes(s: Store, r: Request) {
    !IsFresh(s, r.slot, r.now) && !r.outcome.Raised?
  }

  function Handled(s: Store, r: Request): Store {
    if IsFresh(s, r.slot, r.now) then s
    else if r.outcome.Done? then s[r.slot := Record(r.hash, r.outcome.snapshot, r.now + TTL)]
    else if r.outcome.Raised? && r.outcome.rolledBack then s
    else s - {r.slot}
  }

  function Cleaned(s: Store, now: int): Store {
    map k | k in s && s[k].expiresAt >= now :: s[k]
  }

  class MemoTable {
    var records: Store

    constructor ()
      ensures records == map[]
    {
      records := map[];
    }

    method DeleteExpired(now: int) returns (count: nat)
      modifies this
      ensures records == Cleaned(old(records), now)
      ensures forall k :: k in records <==> k in old(records) && old(records)[k].expiresAt >= now
      ensures forall k :: k in records ==> records[k] == old(records)[k]
      ensures count == |old(records).Keys - records.Keys|
    {
      var gone := set k | k in records && records[k].expiresAt < now;
      records := map k | k in records && k !in gone :: records[k];
      assert gone == old(records).Keys - records.Keys;
      count := |gone|;
    }

    /** `outcome` stands for the call of the command, made only where the body reaches it. */
    method Run(r: Request) returns (response: Response)
      modifies this
      ensures records == Handled(old(records), r)
      ensures response == Respond(old(records), r)
    {
      var before := records;
      if r.slot in records && records[r.slot].expiresAt > r.now {
        if records[r.slot].hash != r.hash {
          return Conflict;
        }
        return Answer(records[r.slot].snapshot);
      }
      if r.slot in records {
        records := records - {r.slot};
      }
      if !r.outcome.Done? {
        if r.outcome.Raised? && r.outcome.rolledBack {
          records := before;
        }
        return Failure;
      }
      records := records[r.slot := Record(r.hash, r.outcome.snapshot, r.now + TTL)];
      response := Answer(r.outcome.snapshot);
    }
  }

  // ---------------------------------------------------------------- runs

  datatype Event = Ask(request: Request) | Cleanup(at: int)

  function TimeOf(e: Event): int {
    if e.Ask? then e.request.now else e.at
  }

  function Next(s: Store, e: Event): Store {
    if e.Ask? then Handled(s, e.request) else Cleaned(s, e.at)
  }

  function RunAll(s: Store, events: seq<Event>): Store
    decreases |events|
  {
    if events == [] then s else RunAll(Next(s, events[0]), events[1..])
  }

  function Responses(s: Store, events: seq<Event>): seq<Response>
    decreases |events|
  {
    if events == [] then []
    else (if events[0].Ask? then [Respond(s, events[0].request)] else []) + Responses(Next(s, events[0]), events[1..])
  }

  function WithoutCleanup(events: seq<Event>): seq<Event>
    decreases |events|
  {
    if events == [] then []
    else (if events[0].Ask? then [events[0]] else []) + WithoutCleanup(events[1..])
  }

  ghost predicate InOrder(events: seq<Event>) {
    forall i, j :: 0 <= i < j < |events| ==> TimeOf(events[i]) <= TimeOf(events[j])
  }

  /** Two stores that hold the same fresh records at an instant. */
  ghost predicate Agree(a: Store, b: Store, now: int) {
    forall k :: (IsFresh(a, k, now) <==> IsFresh(b, k, now)) && (IsFresh(a, k, now) ==> a[k] == b[k])
  }

  lemma AgreeLater(a: Store, b: Store, now: int, later: int)
    requires Agree(a, b, now) && now <= later
    ensures Agree(a, b, later)
  {
    assert forall k :: IsFresh(a, k, later) ==> IsFresh(a, k, now);
    assert forall k :: IsFresh(b, k, later) ==> IsFresh(b, k, now);
  }

  lemma AskKeepsAgreement(a: Store, b: Store, r: Request)
    requires Agree(a, b, r.now)
    ensures Respond(a, r) == Respond(b, r)
    ensures Agree(Handled(a, r), Handled(b, r), r.now)
  {
    assert IsFresh(a, r.slot, r.now) <==> IsFresh(b, r.slot, r.now);
    var x, y := Handled(a, r), Handled(b, r);
    forall k
      ensures (IsFresh(x, k, r.now) <==> IsFresh(y, k, r.now)) && (IsFresh(x, k, r.now) ==> x[k] == y[k])
    {
      assert IsFresh(a, k, r.now) <==> IsFresh(b, k, r.now);
    }
  }

  lemma CleanupKeepsAgreement(a: Store, b: Store, now: int)
    requires Agree(a, b, now)
    ensures Agree(Cleaned(a, now), b, now)
  {
    var x := Cleaned(a, now);
    forall k
      ensures (IsFresh(x, k, now) <==> IsFresh(b, k, now)) && (IsFresh(x, k, now) ==> x[k] == b[k])
    {
      assert IsFresh(a, k, now) <==> IsFresh(b, k, now);
      assert IsFresh(x, k, now) <==> IsFresh(a, k, now);
    }
  }

  lemma {:induction false} AgreementGivesResponses(a: Store, b: Store, events: seq<Event>, now: int)
    requires Agree(a, b, now) && InOrder(events) && (events != [] ==> now <= TimeOf(events[0]))
    ensures Responses(a, events) == Responses(b, WithoutCleanup(events))
    decreases |events|
  {
    hide Agree, Handled, Cleaned, Respond;
    if events != [] {
      var e, rest := events[0], events[1..];
      AgreeLater(a, b, now, TimeOf(e));
      assert InOrder(rest);
      if e.Ask? {
        AskKeepsAgreement(a, b, e.request);
        AgreementGivesResponses(Handled(a, e.request), Handled(b, e.request), rest, TimeOf(e));
        assert WithoutCleanup(events)[1..] == WithoutCleanup(rest);
      } else {
        CleanupKeepsAgreement(a, b, e.at);
        AgreementGivesResponses(Cleaned(a, e.at), b, rest, TimeOf(e));
        assert WithoutCleanup(events) == WithoutCleanup(rest);
      }
    }
  }

  /** Wherever cleanup passes are inserted, every response is what it would be without them. */
  lemma CleanupIsInvisible(s: Store, events: seq<Event>)
    requires InOrder(events)
    ensures Responses(s, events) == Responses(s, WithoutCleanup(events))
  {
    if events != [] {
      AgreementGivesResponses(s, s, events, TimeOf(events[0]));
    }
  }

  // ---------------------------------------------------------------- a day apart

  /** Event k is a request for which the command ran to completion under this slot. */
  ghost predicate CompletesAt(s: Store, events: seq<Event>, k: nat, slot: Slot)
    requires k < |events|
  {
    events[k].Ask? && events[k].request.slot == slot && Completes(RunAll(s, events[..k]), events[k].request)
  }

  /** A completion whose record was stored. */
  ghost predicate RecordedAt(s: Store, events: seq<Event>, k: nat, slot: Slot)
    requires k < |events|
  {
    CompletesAt(s, events, k, slot) && events[k].request.outcome.Done?
  }

  /** A record stays as it is until its time is up. */
  lemma {:induction false} RecordStays(s: Store, events: seq<Event>, slot: Slot)
    requires slot in s && forall i :: 0 <= i < |events| ==> TimeOf(events[i]) < s[slot].expiresAt
    ensures slot in RunAll(s, events) && RunAll(s, events)[slot] == s[slot]
    decreases |events|
  {
    if events != [] {
      var next := Next(s, events[0]);
      assert slot in next && next[slot] == s[slot];
      RecordStays(next, events[1..], slot);
    }
  }

  lemma {:induction false} RunSplits(s: Store, events: seq<Event>, m: nat)
    requires m <= |events|
    ensures RunAll(s, events) == RunAll(RunAll(s, events[..m]), events[m..])
    decreases |events|
  {
    hide Next;
    if m == 0 {
      assert events[..0] == [] && events[0..] == events;
    } else {
      RunSplits(Next(s, events[0]), events[1..], m - 1);
      assert events[..m][1..] == events[1..][..m - 1] && events[1..][m - 1..] == events[m..];
    }
  }

  lemma NextOfAsk(s: Store, e: Event)
    requires e.Ask?
    ensures Next(s, e) == Handled(s, e.request)
  {
  }

  /** The store before event j is the one after the request at i, run through what lies between. */
  lemma BetweenRequests(s: Store, events: seq<Event>, i: nat, j: nat)
    requires i < j <= |events| && events[i].Ask?
    ensures RunAll(s, events[..j]) == RunAll(Handled(RunAll(s, events[..i]), events[i].request), events[i + 1..j])
  {
    hide Next, Handled;
    RunSplits(s, events[..j], i);
    assert events[..j][..i] == events[..i];
    assert events[..j][i..][0] == events[i] && events[..j][i..][1..] == events[i + 1..j];
    NextOfAsk(RunAll(s, events[..i]), events[i]);
  }

  /** With no record that still counts, the command is called: its answer is returned and kept for a day, its failure is not. */
  lemma FirstRequestRuns(s: Store, r: Request)
    requires r.slot in s ==> s[r.slot].expiresAt <= r.now
    ensures Completes(s, r) <==> !r.outcome.Raised?
    ensures match r.outcome
            case Done(snapshot) =>
              Respond(s, r) == Answer(snapshot) && Handled(s, r) == s[r.slot := Record(r.hash, snapshot, r.now + 24 * 60 * 60 * 1_000_000)]
            case _ =>
              Respond(s, r) == Failure && forall now :: now >= r.now ==> !IsFresh(Handled(s, r), r.slot, now)
    ensures forall k :: k != r.slot ==> (k in Handled(s, r) <==> k in s) && (k in s ==> Handled(s, r)[k] == s[k])
  {
  }

  /** For a day after a recorded completion the store holds its record, whatever happens in between. */
  lemma RecordHolds(s: Store, events: seq<Event>, i: nat, j: nat, slot: Slot)
    requires InOrder(events) && i < j < |events| && RecordedAt(s, events, i, slot)
    requires TimeOf(events[j]) < TimeOf(events[i]) + TTL
    ensures var r := events[i].request;
            var before := RunAll(s, events[..j]);
            slot in before && before[slot] == Record(r.hash, r.outcome.snapshot, r.now + TTL)
  {
    BetweenRequests(s, events, i, j);
    RecordStays(Handled(RunAll(s, events[..i]), events[i].request), events[i + 1..j], slot);
  }

  /**
   Within a day of a recorded completion, the same request under its user and key gets the
   stored response again, and a different one is refused; neither runs the command.
   */
  lemma RetriesReplay(s: Store, events: seq<Event>, i: nat, j: nat, slot: Slot)
    requires InOrder(events) && i < j < |events| && RecordedAt(s, events, i, slot)
    requires events[j].Ask? && events[j].request.slot == slot && TimeOf(events[j]) < TimeOf(events[i]) + TTL
    ensures var first, again := events[i].request, events[j].request;
            Respond(RunAll(s, events[..j]), again)
              == if again.hash == first.hash then Answer(first.outcome.snapshot) else Conflict
    ensures !CompletesAt(s, events, j, slot)
  {
    hide RunAll;
    RecordHolds(s, events, i, j, slot);
  }

  /** Two completions under one user and key less than a day apart: the first was not recorded. */
  lemma CloseCompletionsWereUnrecorded(s: Store, events: seq<Event>, i: nat, j: nat, slot: Slot)
    requires InOrder(events) && i < j < |events| && CompletesAt(s, events, i, slot) && CompletesAt(s, events, j, slot)
    ensures TimeOf(events[j]) >= TimeOf(events[i]) + TTL || events[i].request.outcome.Unrecorded?
  {
    if RecordedAt(s, events, i, slot) && TimeOf(events[j]) < TimeOf(events[i]) + TTL {
      RetriesReplay(s, events, i, j, slot);
    }
  }

  /** The run goes on, in order, to complete the command again within a day of its last event. */
  ghost predicate RunsAgain(s: Store, events: seq<Event>, more: seq<Event>, slot: Slot) {
    var all := events + more;
    && events != [] && more != [] && InOrder(all) && CompletesAt(s, all, |all| - 1, slot)
    && TimeOf(all[|all| - 1]) < TimeOf(events[|events| - 1]) + TTL
  }

  lemma PrefixCompletes(s: Store, events: seq<Event>, more: seq<Event>, k: nat, slot: Slot)
    requires k < |events| && CompletesAt(s, events, k, slot)
    ensures CompletesAt(s, events + more, k, slot)
  {
    assert (events + more)[..k] == events[..k];
  }

  /** After an unrecorded completion the very same request completes once more. */
  lemma UnrecordedRunsAgain(s: Store, events: seq<Event>, slot: Slot, snapshot: string)
    requires events != [] && InOrder(events) && CompletesAt(s, events, |events| - 1, slot)
    requires events[|events| - 1].request.outcome.Unrecorded?
    ensures RunsAgain(s, events, [Ask(events[|events| - 1].request.(outcome := Done(snapshot)))], slot)
  {
    var last := |events| - 1;
    var all := events + [Ask(events[last].request.(outcome := Done(snapshot)))];
    PrefixCompletes(s, events, all[|events|..], last, slot);
    BetweenRequests(s, all, last, |events|);
    assert all[..last] == events[..last] && all[last + 1..|events|] == [];
    assert slot !in RunAll(s, all[..|events|]);
  }

  /**
   After a completion, in any run, the command can complete again within a day under its
   user and key exactly when the record of the first was not stored.
   */
  lemma RunsAgainExactlyIfUnrecorded(s: Store, events: seq<Event>, slot: Slot)
    requires events != [] && InOrder(events) && CompletesAt(s, events, |events| - 1, slot)
    ensures (exists more :: RunsAgain(s, events, more, slot)) <==> events[|events| - 1].request.outcome.Unrecorded?
  {
    hide RunAll, Completes;
    var last := |events| - 1;
    if events[last].request.outcome.Unrecorded? {
      UnrecordedRunsAgain(s, events, slot, "");
    }
    forall more | RunsAgain(s, events, more, slot)
      ensures events[last].request.outcome.Unrecorded?
    {
      PrefixCompletes(s, events, more, last, slot);
      CloseCompletionsWereUnrecorded(s, events + more, last, |events + more| - 1, slot);
    }
  }

  /** Such a run from an empty table: the first completion is lost, the retry runs the command again. */
  lemma CommandCanRunTwiceInADay()
    ensures exists events: seq<Event>, slot ::
              && |events| == 2 && InOrder(events) && events[0].Ask? && events[1].Ask?
              && CompletesAt(map[], events, 0, slot) && CompletesAt(map[], events, 1, slot)
              && events[0].request.hash == events[1].request.hash && TimeOf(events[1]) < TimeOf(events[0]) + TTL
  {
    var slot := Slot(1, "key");
    var first := Ask(Request(slot, 7, 0, Unrecorded));
    var events := [first];
    assert events[..0] == [] && CompletesAt(map[], events, 0, slot);
    UnrecordedRunsAgain(map[], events, slot, "");
    var again := Ask(first.request.(outcome := Done("")));
    PrefixCompletes(map[], events, [again], 0, slot);
    assert events + [again] == [first, again];
  }
}
