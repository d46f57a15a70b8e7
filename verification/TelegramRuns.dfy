/**
 Every run of the chat desk, cut at its commits.

 A message is one transaction. A confirmation is two: the create command commits the claim
 together with the intent, and what remains (marking the interaction confirmed, or cancelled
 after a duplicate) is a job for a later commit that other requests may come before and a
 crash may prevent. A request that dies before its first commit leaves nothing, and is no
 step at all.
 */
module TelegramRuns {
  import opened Outcomes
  import opened DecimalText
  import opened Price
  import opened TradingSession
  import opened Intents
  import opened IntentStore
  import opened TelegramDesk
  import Protocol = IntentProtocol
  import Runs = IntentRuns

  /** This intent was created to confirm this interaction. */
  datatype Birth = Birth(interaction: nat, intent: IntentId)

  datatype Job =
    | ToConfirm(id: nat, chat: string, at: Instant, intent: IntentId)
    | ToCancel(id: nat, chat: string)

  /** What is committed, the record of confirmations, and the requests between two commits. */
  datatype World = World(rows: Rows, site: Runs.Site, born: seq<Birth>, jobs: seq<Job>)

  /** What the create command meets; `readBack` is whether its read after the commit succeeds. */
  datatype Attempt = Attempt(
    id: IntentId,
    security: Option<SecurityType>,
    now: Instant,
    subscribed: bool,
    halted: bool,
    quote: Option<Quote>,
    commits: bool,
    readBack: bool)

  datatype Step =
    | OnMessage(m: Message, edited: bool, sent: Option<int>)
    | OnCallback(c: Callback, attempt: Attempt)
    | Finish(k: nat)
    | Crash(k: nat)
    | Elsewhere(command: Runs.Command)

  function CommandFor(a: Attempt, inp: CreateInput): Runs.Command {
    Runs.CreateCommand(a.id, inp, a.security, a.now, a.subscribed, a.halted, a.quote)
  }

  ghost predicate Enabled(w: World, s: Step) {
    match s
    case OnMessage(_, _, _) => true
    case OnCallback(c, a) =>
      var p := Pressed(w.rows, c);
      p.GoesAhead? ==> Runs.Enabled(w.site, CommandFor(a, p.inp))
    case Finish(k) => k < |w.jobs|
    case Crash(k) => k < |w.jobs|
    case Elsewhere(command) => Runs.Enabled(w.site, command)
  }

  function Without(jobs: seq<Job>, k: nat): seq<Job>
    requires k < |jobs|
  {
    jobs[..k] + jobs[k + 1..]
  }

  function AfterJob(rows: Rows, j: Job): Rows {
    match j
    case ToConfirm(id, chat, at, intent) => MarkedConfirmed(rows, id, chat, at, intent)
    case ToCancel(id, chat) => Marked(rows, id, State.Cancelled, chat)
  }

  function CreatedFor(db: Db, limits: Limits, a: Attempt, inp: CreateInput): Result<Db, CreateError>
    requires a.id !in db.rows
  {
    Created(db, a.id, inp, a.security, limits, a.now, a.subscribed, a.halted, a.quote)
  }

  ghost function Attempted(w: World, limits: Limits, c: Callback, a: Attempt, id: nat, inp: CreateInput): World
    requires IsPendingIn(w.rows, id, c.chat) && Runs.Enabled(w.site, CommandFor(a, inp))
  {
    var r := CreatedFor(w.site.db, limits, a, inp);
    var site := Runs.Execute(w.site, limits, CommandFor(a, inp));
    if !a.commits then w
    else if r.Ok? then
      World(Claimed(w.rows, id, c.chat).value, site, w.born + [Birth(id, a.id)],
            w.jobs + if a.readBack then [ToConfirm(id, c.chat, c.now, a.id)] else [])
    else if r.error.DuplicateIntent? then w.(site := site, jobs := w.jobs + [ToCancel(id, c.chat)])
    else w.(site := site)
  }

  ghost function Next(w: World, limits: Limits, s: Step): World
    requires Enabled(w, s)
  {
    match s
    case OnMessage(m, edited, sent) =>
      var h := Handled(w.rows, m);
      if h.None? then w else w.(rows := Delivered(h.value.0, m.chat, h.value.1, edited, sent))
    case OnCallback(c, a) =>
      var p := Pressed(w.rows, c);
      if p.Answered? then w.(rows := p.rows) else Attempted(w, limits, c, a, p.id, p.inp)
    case Finish(k) => w.(rows := AfterJob(w.rows, w.jobs[k]), jobs := Without(w.jobs, k))
    case Crash(k) => w.(jobs := Without(w.jobs, k))
    case Elsewhere(command) => w.(site := Runs.Execute(w.site, limits, command))
  }

  ghost predicate Reaches(w: World, limits: Limits, steps: seq<Step>, end: World)
    decreases |steps|
  {
    if steps == [] then w == end
    else Enabled(w, steps[0]) && Reaches(Next(w, limits, steps[0]), limits, steps[1..], end)
  }

  function Start(clock: Instant): World {
    World([], Runs.Site(EmptyDb(), clock), [], [])
  }

  // ---------------------------------------------------------------- the table on its own

  ghost predicate OneOpen(rows: Rows) {
    forall a, b :: 0 <= a < b < |rows| && rows[a].chat == rows[b].chat && IsOpen(rows[a].state) ==> !IsOpen(rows[b].state)
  }

  /** The create command's own checks of its parameters accept the input for some kind of security. */
  predicate Creatable(inp: CreateInput) {
    inp.quantity > 0 && !HasStrayTrail(inp) && (CheckParameters(inp, Stock) == Ok(()) || CheckParameters(inp, Etf) == Ok(()))
  }

  ghost predicate IsGoodDraft(i: Interaction) {
    i.payload.capability == Some(i.capability) && ToCreateInput(i.payload, i.owner).Some?
    && Creatable(ToCreateInput(i.payload, i.owner).value)
  }

  predicate IsClaimed(s: State) {
    s.Confirming? || s.Confirmed?
  }

  ghost predicate RowFits(i: Interaction) {
    (i.kind.Draft? ==> IsGoodDraft(i) && i.missing == []) && (IsClaimed(i.state) ==> i.kind.Draft?) && (i.intent.Some? <==> i.state.Confirmed?)
  }

  ghost predicate TableFits(rows: Rows) {
    OneOpen(rows) && forall id :: 0 <= id < |rows| ==> RowFits(rows[id])
  }

  /** The same request: prices compared as numbers. */
  ghost predicate SameTerms(a: Interaction, b: Interaction) {
    && b.owner == a.owner && b.chat == a.chat && b.capability == a.capability
    && b.payload.symbol == a.payload.symbol && b.payload.quantity == a.payload.quantity
    && b.payload.price.Some? == a.payload.price.Some?
    && (a.payload.price.Some? ==> Value(a.payload.price.value) == Value(b.payload.price.value))
  }

  /** A draft keeps its terms; what is no longer pending keeps all but the message showing it. */
  ghost predicate Follows(a: Interaction, b: Interaction) {
    && b.owner == a.owner && b.chat == a.chat
    && (a.kind.Draft? ==> b.kind.Draft? && SameTerms(a, b))
    && (!a.state.Pending? ==> b == a.(message := b.message))
    && (a.state.Pending? ==> !IsClaimed(b.state))
  }

  /** The step of a request that creates no intent. */
  ghost predicate Quiet(before: Rows, after: Rows) {
    && |before| <= |after|
    && (forall id :: 0 <= id < |before| ==> Follows(before[id], after[id]))
    && (forall id :: |before| <= id < |after| ==> after[id].state.Pending?)
  }

  lemma QuietComposes(a: Rows, b: Rows, c: Rows)
    requires Quiet(a, b) && Quiet(b, c)
    requires forall id :: |a| <= id < |b| ==> id < |c| && c[id].state.Pending?
    ensures Quiet(a, c)
  {
  }

  /** Without an objection the decision's own values make a valid create input. */
  lemma UnopposedIsGood(d: Decision, c: Capability, security: Option<SecurityType>, previous: Payload, owner: UserId)
    requires d.capability == Some(c) && Objection(d, security).None?
    ensures var p := PayloadFrom(d, c, previous);
            && p.capability == Some(c) && p.symbol == d.symbol && p.quantity == d.quantity && p.price == d.price
            && ToCreateInput(p, owner).Some? && Creatable(ToCreateInput(p, owner).value)
  {
    hide Validate, Value;
    assert security.value == Stock || security.value == Etf;
  }

  /** A decision let through onto a draft leaves its terms as they were. */
  lemma SameRequestKeepsTerms(i: Interaction, d: Decision, security: Option<SecurityType>)
    requires i.kind.Draft? && IsGoodDraft(i) && !IsDifferentRequest(i, d) && Objection(d, security).None?
    ensures d.verdict.DraftIntent? && d.capability == Some(i.capability)
    ensures d.symbol == i.payload.symbol && d.quantity == i.payload.quantity && d.price.Some? == i.payload.price.Some?
    ensures d.price.Some? ==> Value(i.payload.price.value) == Value(d.price.value)
  {
    hide Validate, Value, Creatable;
  }

  lemma AddKeepsTable(rows: Rows, i: Interaction)
    requires TableFits(rows) && RowFits(i) && i.state.Pending? && Added(rows, i).Some?
    ensures TableFits(Added(rows, i).value) && Quiet(rows, Added(rows, i).value)
  {
    hide RowFits;
  }

  /** Changing one row that stays no more open than it was. */
  lemma UpdateKeepsTable(rows: Rows, id: nat, i: Interaction)
    requires TableFits(rows) && id < |rows| && RowFits(i) && Follows(rows[id], i) && (IsOpen(i.state) ==> IsOpen(rows[id].state))
    ensures TableFits(rows[id := i]) && Quiet(rows, rows[id := i])
  {
    hide RowFits, Value;
  }

  lemma MarkKeepsTable(rows: Rows, id: nat, state: State, chat: string)
    requires TableFits(rows) && (state.Cancelled? || state.Expired?)
    ensures TableFits(Marked(rows, id, state, chat)) && Quiet(rows, Marked(rows, id, state, chat))
    ensures |Marked(rows, id, state, chat)| == |rows|
  {
    hide Creatable, ToCreateInput, Value;
    if IsPendingIn(rows, id, chat) {
      UpdateKeepsTable(rows, id, rows[id].(state := state));
    }
  }

  lemma AttachKeepsTable(rows: Rows, id: nat, chat: string, message: int)
    requires TableFits(rows)
    ensures TableFits(Attached(rows, id, chat, message))
    ensures |Attached(rows, id, chat, message)| == |rows|
    ensures forall k :: 0 <= k < |rows| ==> Attached(rows, id, chat, message)[k] == rows[k].(message := Attached(rows, id, chat, message)[k].message)
  {
    hide Creatable, ToCreateInput, Value;
    if id < |rows| && rows[id].chat == chat {
      assert RowFits(rows[id].(message := Some(message)));
      assert TableFits(rows[id := rows[id].(message := Some(message))]) by { hide RowFits; }
    }
  }

  /** Saving: a new row is pending, a pending one is refreshed, and nothing else moves. */
  lemma SaveKeepsTable(rows: Rows, owner: UserId, chat: string, pending: Option<nat>, d: Decision, c: Capability,
                       kind: Kind, security: Option<SecurityType>, now: Instant)
    requires TableFits(rows) && d.capability == Some(c)
    requires pending.Some? ==> IsPendingIn(rows, pending.value, chat) && !IsDifferentRequest(rows[pending.value], d)
    requires kind == if d.verdict.DraftIntent? then Draft else Clarification
    requires kind.Draft? ==> Objection(d, security).None?
    requires Saved(rows, owner, chat, pending, d, c, kind, now).Some?
    ensures var (after, id) := Saved(rows, owner, chat, pending, d, c, kind, now).value;
            TableFits(after) && Quiet(rows, after) && id < |after|
  {
    hide Objection, Creatable, ToCreateInput, Value, TableFits, Quiet, OneOpen;
    var (after, id) := Saved(rows, owner, chat, pending, d, c, kind, now).value;
    var row := after[id];
    if kind.Draft? {
      var previous := if pending.Some? then rows[pending.value].payload else NO_PAYLOAD;
      UnopposedIsGood(d, c, security, previous, row.owner);
    }
    if pending.Some? {
      var was := rows[pending.value];
      assert RowFits(was) && RowFits(row) by { RowFitsAt(rows, pending.value); }
      if was.kind.Draft? {
        SameRequestKeepsTerms(was, d, security);
      }
      UpdateKeepsTable(rows, id, row);
    } else {
      AddKeepsTable(rows, row);
    }
  }

  lemma RowFitsAt(rows: Rows, id: nat)
    requires TableFits(rows) && id < |rows|
    ensures RowFits(rows[id])
  {
  }

  lemma DecideKeepsTable(rows: Rows, m: Message, owner: UserId, pending: Option<nat>)
    requires TableFits(rows) && (pending.Some? ==> IsPendingIn(rows, pending.value, m.chat))
    requires Decided(rows, m, owner, pending).Some?
    ensures TableFits(Decided(rows, m, owner, pending).value.0) && Quiet(rows, Decided(rows, m, owner, pending).value.0)
  {
    hide Objection, IsDifferentRequest, Saved, TableFits, Quiet;
    var after := Decided(rows, m, owner, pending).value.0;
    SameIsQuiet(rows);
    if after != rows {
      var d := m.decision.value;
      var kind := if d.verdict.DraftIntent? then Draft else Clarification;
      SaveKeepsTable(rows, owner, m.chat, pending, d, d.capability.value, kind, m.security, m.now);
    }
  }

  lemma SameIsQuiet(rows: Rows)
    requires TableFits(rows)
    ensures Quiet(rows, rows)
  {
  }

  lemma MessageKeepsTable(rows: Rows, m: Message, edited: bool, sent: Option<int>)
    requires TableFits(rows) && Handled(rows, m).Some?
    ensures var h := Handled(rows, m).value;
            var after := Delivered(h.0, m.chat, h.1, edited, sent);
            TableFits(after) && Quiet(rows, after)
  {
    hide TableFits, Quiet, Decided, Marked, Attached;
    var h := Handled(rows, m).value;
    SameIsQuiet(rows);
    assert TableFits(h.0) && Quiet(rows, h.0) by {
      var found := if m.blind then None else FindOpen(rows, m.chat);
      if h.0 == rows {
      } else if rows != [] && found.Some? && rows[found.value].expiresAt <= m.now {
        var marked := Marked(rows, found.value, State.Expired, m.chat);
        MarkKeepsTable(rows, found.value, State.Expired, m.chat);
        DecideKeepsTable(marked, m, m.owner.value, None);
        QuietComposes(rows, marked, h.0);
      } else {
        DecideKeepsTable(rows, m, m.owner.value, found);
      }
    }
    var after := Delivered(h.0, m.chat, h.1, edited, sent);
    if after != h.0 {
      AttachKeepsTable(h.0, h.1.interaction.value, m.chat, sent.value);
      AttachIsQuiet(rows, h.0, after);
    }
  }

  lemma AttachIsQuiet(a: Rows, b: Rows, c: Rows)
    requires Quiet(a, b) && |c| == |b| && forall k :: 0 <= k < |b| ==> c[k] == b[k].(message := c[k].message)
    ensures Quiet(a, c)
  {
  }

  lemma PressKeepsTable(rows: Rows, c: Callback)
    requires TableFits(rows) && Pressed(rows, c).Answered?
    ensures TableFits(Pressed(rows, c).rows) && Quiet(rows, Pressed(rows, c).rows)
  {
    hide TableFits, Quiet, Marked, ToCreateInput;
    SameIsQuiet(rows);
    if c.data.Some? {
      MarkKeepsTable(rows, c.data.value.1, State.Expired, c.chat);
      MarkKeepsTable(rows, c.data.value.1, State.Cancelled, c.chat);
    }
  }

  // ---------------------------------------------------------------- intents keep their request

  ghost predicate KeepsRequests(before: Db, after: Db) {
    forall id :: id in before.rows ==> id in after.rows && Protocol.SameRequest(before.rows[id], after.rows[id])
  }

  lemma TurnKeepsRequests(db: Db, q: Quote, now: Instant, l: Listed)
    requires Processed(db, q, now, l).Ok?
    ensures KeepsRequests(db, Processed(db, q, now, l).value)
  {
  }

  lemma {:induction false} LoopKeepsRequests(db: Db, q: Quote, now: Instant, listed: seq<Listed>)
    requires ProcessedAll(db, q, now, listed).Ok?
    ensures KeepsRequests(db, ProcessedAll(db, q, now, listed).value)
    decreases |listed|
  {
    hide Processed;
    if listed != [] {
      TurnKeepsRequests(db, q, now, listed[0]);
      LoopKeepsRequests(Processed(db, q, now, listed[0]).value, q, now, listed[1..]);
    }
  }

  /** A created intent asks for what the input said, and no other intent's request changes. */
  lemma CreateCarriesInput(db: Db, limits: Limits, a: Attempt, inp: CreateInput)
    requires a.id !in db.rows && CreatedFor(db, limits, a, inp).Ok?
    ensures var after := CreatedFor(db, limits, a, inp).value;
            && KeepsRequests(db, after) && a.security.Some? && a.id in after.rows
            && Protocol.SameRequest(NewIntent(inp, a.security.value, a.now), after.rows[a.id])
  {
    hide Processed, CheckParameters, ClashesInDb, PassesChecks, NewIntent, LiveOf, LiveOn;
    var intent := NewIntent(inp, a.security.value, a.now);
    var inserted := Inserted(db, a.id, intent);
    if StartsActive(a.now) && !a.halted && a.quote.Some? {
      TurnKeepsRequests(inserted, a.quote.value, a.now, Listed(a.id, intent));
    }
  }

  lemma LifecycleKeepsRequests(db: Db, now: Instant)
    ensures KeepsRequests(db, LifecycleRun(db, now))
  {
  }

  lemma RequestsKeptTwice(a: Db, b: Db, c: Db)
    requires KeepsRequests(a, b) && KeepsRequests(b, c)
    ensures KeepsRequests(a, c)
  {
  }

  lemma DispatchKeepsRequests(s: Runs.Site, limits: Limits, c: Runs.Command)
    requires Runs.Enabled(s, c) && c.DispatchCommand?
    ensures KeepsRequests(s.db, Runs.Execute(s, limits, c).db)
  {
    hide ProcessedAll, IsListing, LifecycleRun, KeepsRequests;
    var ready := LifecycleRun(s.db, c.later);
    SameRequestsKept(s.db);
    LifecycleKeepsRequests(s.db, c.later);
    if !c.halted && ProcessedAll(ready, c.snapshot, c.now, c.listed).Ok? {
      LoopKeepsRequests(ready, c.snapshot, c.now, c.listed);
      RequestsKeptTwice(s.db, ready, Runs.Execute(s, limits, c).db);
    }
  }

  lemma CommandKeepsRequests(s: Runs.Site, limits: Limits, c: Runs.Command)
    requires Runs.Enabled(s, c)
    ensures KeepsRequests(s.db, Runs.Execute(s, limits, c).db)
  {
    hide Dispatched, Created, IsListing, ExpiryCutoff, PhaseAt, DayOf;
    if c.CreateCommand? {
      var a := Attempt(c.id, c.security, c.now, c.subscribed, c.halted, c.quote, true, true);
      if CreatedFor(s.db, limits, a, c.inp).Ok? {
        CreateCarriesInput(s.db, limits, a, c.inp);
      }
    } else if c.DispatchCommand? {
      DispatchKeepsRequests(s, limits, c);
    }
  }

  // ---------------------------------------------------------------- one intent per confirmation

  /** The intent asks for exactly what the interaction shows. */
  ghost predicate Carries(i: Intent, x: Interaction) {
    var inp := ToCreateInput(x.payload, x.owner);
    && inp.Some? && i.owner == inp.value.owner && i.symbol == inp.value.symbol && i.strategy == inp.value.strategy
    && i.quantity == inp.value.quantity && i.mode == inp.value.mode && i.target == inp.value.target && i.trail.None?
  }

  ghost predicate BirthFits(w: World, b: Birth) {
    && b.interaction < |w.rows| && IsClaimed(w.rows[b.interaction].state)
    && b.intent in w.site.db.rows && Carries(w.site.db.rows[b.intent], w.rows[b.interaction])
  }

  ghost predicate HasBirth(w: World, id: int) {
    exists k :: 0 <= k < |w.born| && w.born[k].interaction == id
  }

  /** A job confirms an interaction of its own chat with the intent created for it. */
  ghost predicate JobFits(w: World, j: Job)
    requires j.ToConfirm?
  {
    j.id < |w.rows| && j.chat == w.rows[j.id].chat && Birth(j.id, j.intent) in w.born
  }

  /** Confirming and confirmed interactions have one intent each, all others none. */
  ghost predicate Linked(w: World) {
    && (forall k :: 0 <= k < |w.born| ==> BirthFits(w, w.born[k]))
    && (forall j, k :: 0 <= j < k < |w.born| ==>
          w.born[j].interaction != w.born[k].interaction && w.born[j].intent != w.born[k].intent)
    && (forall id :: 0 <= id < |w.rows| && IsClaimed(w.rows[id].state) ==> HasBirth(w, id))
    && (forall id :: 0 <= id < |w.rows| && w.rows[id].intent.Some? ==> Birth(id, w.rows[id].intent.value) in w.born)
    && (forall j :: 0 <= j < |w.jobs| && w.jobs[j].ToConfirm? ==> JobFits(w, w.jobs[j]))
  }

  ghost predicate Invariant(w: World, limits: Limits) {
    TableFits(w.rows) && Linked(w) && Runs.Invariant(w.site.db, limits, w.site.clock)
  }

  /** A quiet step of the table, with requests kept and no new confirmation job. */
  lemma QuietKeepsLinked(w: World, next: World)
    requires Linked(w) && TableFits(w.rows) && TableFits(next.rows) && Quiet(w.rows, next.rows)
    requires KeepsRequests(w.site.db, next.site.db) && next.born == w.born
    requires forall j :: 0 <= j < |next.jobs| && next.jobs[j].ToConfirm? ==> next.jobs[j] in w.jobs
    ensures Linked(next)
  {
    hide OneOpen, IsGoodDraft, SameTerms, ToCreateInput;
    forall k | 0 <= k < |next.born|
      ensures BirthFits(next, next.born[k])
    {
      assert BirthFits(w, w.born[k]);
      assert Follows(w.rows[w.born[k].interaction], next.rows[w.born[k].interaction]);
    }
    forall id | 0 <= id < |next.rows| && IsClaimed(next.rows[id].state)
      ensures HasBirth(next, id)
    {
      assert id < |w.rows| && Follows(w.rows[id], next.rows[id]);
      assert HasBirth(w, id);
    }
    forall id | 0 <= id < |next.rows| && next.rows[id].intent.Some?
      ensures Birth(id, next.rows[id].intent.value) in next.born
    {
      assert RowFits(next.rows[id]);
      assert id < |w.rows| && Follows(w.rows[id], next.rows[id]);
    }
  }

  lemma SameRequestsKept(db: Db)
    ensures KeepsRequests(db, db)
  {
  }

  lemma CarriesIgnoresState(i: Intent, j: Intent, x: Interaction, y: Interaction)
    requires Carries(i, x) && Protocol.SameRequest(i, j) && y.payload == x.payload && y.owner == x.owner
    ensures Carries(j, y)
  {
  }

  /** Earlier births still fit when a pending row is claimed. */
  lemma ClaimKeepsBirths(w: World, next: World, id: nat, chat: string, b: Birth)
    requires BirthFits(w, b) && IsPendingIn(w.rows, id, chat) && KeepsRequests(w.site.db, next.site.db)
    requires next.rows == Claimed(w.rows, id, chat).value
    ensures BirthFits(next, b)
  {
    hide Carries, Protocol.SameRequest;
    CarriesIgnoresState(w.site.db.rows[b.intent], next.site.db.rows[b.intent], w.rows[b.interaction], next.rows[b.interaction]);
  }

  lemma BirthStays(w: World, next: World, id: nat)
    requires HasBirth(w, id) && |next.born| >= |w.born| && next.born[..|w.born|] == w.born
    ensures HasBirth(next, id)
  {
    var k :| 0 <= k < |w.born| && w.born[k].interaction == id;
    assert next.born[..|w.born|][k].interaction == id;
  }

  /** The claim and its intent, committed together. */
  lemma ClaimKeepsLinked(w: World, next: World, id: nat, chat: string, intent: IntentId, more: seq<Job>)
    requires Linked(w) && TableFits(w.rows) && IsPendingIn(w.rows, id, chat) && intent !in w.site.db.rows
    requires KeepsRequests(w.site.db, next.site.db)
    requires intent in next.site.db.rows && Carries(next.site.db.rows[intent], w.rows[id])
    requires next == World(Claimed(w.rows, id, chat).value, next.site, w.born + [Birth(id, intent)], w.jobs + more)
    requires forall j :: 0 <= j < |more| && more[j].ToConfirm? ==> more[j].id == id && more[j].chat == chat && more[j].intent == intent
    ensures Linked(next)
  {
    hide OneOpen, IsGoodDraft, ToCreateInput, KeepsRequests, HasBirth, Carries;
    forall k | 0 <= k < |next.born|
      ensures BirthFits(next, next.born[k])
    {
      if k < |w.born| {
        ClaimKeepsBirths(w, next, id, chat, w.born[k]);
      } else {
        CarriesItself(next.site.db.rows[intent], w.rows[id], next.rows[id]);
      }
    }
    forall i | 0 <= i < |next.rows| && IsClaimed(next.rows[i].state)
      ensures HasBirth(next, i)
    {
      if i == id {
        NewestHasBirth(next);
      } else {
        BirthStays(w, next, i);
      }
    }
    forall j | 0 <= j < |next.jobs| && next.jobs[j].ToConfirm?
      ensures JobFits(next, next.jobs[j])
    {
      if j < |w.jobs| {
        assert JobFits(w, w.jobs[j]);
      }
    }
  }

  lemma CarriesItself(i: Intent, x: Interaction, y: Interaction)
    requires Carries(i, x) && y.payload == x.payload && y.owner == x.owner
    ensures Carries(i, y)
  {
  }

  lemma NewestHasBirth(w: World)
    requires w.born != []
    ensures HasBirth(w, w.born[|w.born| - 1].interaction)
  {
  }

  lemma ClaimKeepsTable(rows: Rows, id: nat, chat: string)
    requires TableFits(rows) && IsPendingIn(rows, id, chat) && rows[id].kind.Draft?
    ensures TableFits(Claimed(rows, id, chat).value)
  {
    hide IsGoodDraft, ToCreateInput;
    assert RowFits(rows[id].(state := Confirming)) by {
      assert RowFits(rows[id]);
      GoodDraftIgnoresState(rows[id], Confirming, None, None);
    }
  }

  lemma GoodDraftIgnoresState(i: Interaction, s: State, at: Option<Instant>, intent: Option<IntentId>)
    ensures IsGoodDraft(i) == IsGoodDraft(i.(state := s)) == IsGoodDraft(i.(state := s, confirmedAt := at, intent := intent))
  {
  }

  lemma ConfirmKeepsTable(rows: Rows, id: nat, chat: string, at: Instant, intent: IntentId)
    requires TableFits(rows)
    ensures TableFits(MarkedConfirmed(rows, id, chat, at, intent))
  {
    hide IsGoodDraft, ToCreateInput;
    if id < |rows| {
      assert RowFits(rows[id]);
      GoodDraftIgnoresState(rows[id], Confirmed, Some(at), Some(intent));
    }
  }

  lemma ConfirmKeepsBirths(w: World, next: World, job: Job, b: Birth)
    requires BirthFits(w, b) && job.ToConfirm? && next.rows == AfterJob(w.rows, job) && next.site == w.site
    ensures BirthFits(next, b)
  {
    hide Carries;
    CarriesItself(w.site.db.rows[b.intent], w.rows[b.interaction], next.rows[b.interaction]);
  }

  lemma ConfirmKeepsLinked(w: World, k: nat)
    requires Linked(w) && k < |w.jobs| && w.jobs[k].ToConfirm?
    ensures Linked(w.(rows := AfterJob(w.rows, w.jobs[k]), jobs := Without(w.jobs, k)))
  {
    hide Carries, BirthFits, HasBirth;
    var job := w.jobs[k];
    var next := w.(rows := AfterJob(w.rows, job), jobs := Without(w.jobs, k));
    assert JobFits(w, job);
    forall j | 0 <= j < |next.born|
      ensures BirthFits(next, next.born[j])
    {
      ConfirmKeepsBirths(w, next, job, w.born[j]);
    }
    forall i | 0 <= i < |next.rows| && IsClaimed(next.rows[i].state)
      ensures HasBirth(next, i)
    {
      BirthStays(w, next, i);
    }
    forall j | 0 <= j < |next.jobs| && next.jobs[j].ToConfirm?
      ensures JobFits(next, next.jobs[j])
    {
      assert next.jobs[j] == w.jobs[if j < k then j else j + 1];
      assert JobFits(w, next.jobs[j]);
    }
  }

  lemma AttemptKeepsInvariant(w: World, limits: Limits, c: Callback, a: Attempt, id: nat, inp: CreateInput)
    requires Invariant(w, limits) && Pressed(w.rows, c) == GoesAhead(id, inp) && Runs.Enabled(w.site, CommandFor(a, inp))
    ensures Invariant(Attempted(w, limits, c, a, id, inp), limits)
  {
    hide Created, TableFits, Linked, Quiet, Runs.Invariant, KeepsRequests, NewIntent;
    var next := Attempted(w, limits, c, a, id, inp);
    var command := CommandFor(a, inp);
    var r := CreatedFor(w.site.db, limits, a, inp);
    Runs.CommandKeepsInvariant(w.site, limits, command);
    CommandKeepsRequests(w.site, limits, command);
    SameIsQuiet(w.rows);
    PressedInput(w.rows, c);
    if a.commits && r.Ok? {
      CreateCarriesInput(w.site.db, limits, a, inp);
      NewIntentCarries(inp, a.security.value, a.now, w.rows[id], next.site.db.rows[a.id]);
      ClaimKeepsTable(w.rows, id, c.chat);
      ClaimKeepsLinked(w, next, id, c.chat, a.id, if a.readBack then [ToConfirm(id, c.chat, c.now, a.id)] else []);
    } else if a.commits {
      QuietKeepsLinked(w, next);
    }
  }

  lemma PressedInput(rows: Rows, c: Callback)
    requires Pressed(rows, c).GoesAhead?
    ensures var p := Pressed(rows, c); Some(p.inp) == ToCreateInput(rows[p.id].payload, rows[p.id].owner)
  {
  }

  lemma NewIntentCarries(inp: CreateInput, security: SecurityType, now: Instant, x: Interaction, stored: Intent)
    requires ToCreateInput(x.payload, x.owner) == Some(inp)
    requires Protocol.SameRequest(NewIntent(inp, security, now), stored)
    ensures Carries(stored, x)
  {
  }

  lemma StepKeepsInvariant(w: World, limits: Limits, s: Step)
    requires Invariant(w, limits) && Enabled(w, s)
    ensures Invariant(Next(w, limits, s), limits)
  {
    hide TableFits, Linked, Quiet, Runs.Invariant, KeepsRequests, Handled, Delivered, Pressed, Attempted, Runs.Execute, Runs.Enabled, Marked;
    SameRequestsKept(w.site.db);
    SameIsQuiet(w.rows);
    var next := Next(w, limits, s);
    match s
    case OnMessage(m, edited, sent) =>
      if Handled(w.rows, m).Some? {
        MessageKeepsTable(w.rows, m, edited, sent);
        QuietKeepsLinked(w, next);
      }
    case OnCallback(c, a) =>
      var p := Pressed(w.rows, c);
      if p.Answered? {
        PressKeepsTable(w.rows, c);
        QuietKeepsLinked(w, next);
      } else {
        AttemptKeepsInvariant(w, limits, c, a, p.id, p.inp);
      }
    case Finish(k) =>
      var job := w.jobs[k];
      if job.ToConfirm? {
        ConfirmKeepsTable(w.rows, job.id, job.chat, job.at, job.intent);
        ConfirmKeepsLinked(w, k);
      } else {
        MarkKeepsTable(w.rows, job.id, State.Cancelled, job.chat);
        QuietKeepsLinked(w, next);
      }
    case Crash(k) =>
      QuietKeepsLinked(w, next);
    case Elsewhere(command) =>
      Runs.CommandKeepsInvariant(w.site, limits, command);
      CommandKeepsRequests(w.site, limits, command);
      QuietKeepsLinked(w, next);
  }

  lemma {:induction false} RunKeepsInvariant(w: World, limits: Limits, steps: seq<Step>, end: World)
    requires Invariant(w, limits) && Reaches(w, limits, steps, end)
    ensures Invariant(end, limits)
    decreases |steps|
  {
    hide Invariant, Next, Enabled;
    if steps != [] {
      StepKeepsInvariant(w, limits, steps[0]);
      RunKeepsInvariant(Next(w, limits, steps[0]), limits, steps[1..], end);
    }
  }

  lemma EveryRunKeepsInvariant(limits: Limits, clock: Instant, steps: seq<Step>, w: World)
    requires Reaches(Start(clock), limits, steps, w)
    ensures Invariant(w, limits)
  {
    assert Runs.Reaches(Runs.Site(EmptyDb(), clock), limits, [], Runs.Site(EmptyDb(), clock));
    Runs.EveryRunKeepsInvariant(limits, clock, [], Runs.Site(EmptyDb(), clock));
    RunKeepsInvariant(Start(clock), limits, steps, w);
  }

  /**
   In every run, crashes and all: an interaction is confirming or confirmed exactly when an
   intent was created for it; there is then just one, it asks for what the interaction
   shows, no other interaction shares it, and a confirmed interaction names it.
   */
  lemma OneIntentPerConfirmation(limits: Limits, clock: Instant, steps: seq<Step>, w: World, id: nat)
    requires Reaches(Start(clock), limits, steps, w) && id < |w.rows|
    ensures IsClaimed(w.rows[id].state) <==> HasBirth(w, id)
    ensures forall j, k :: 0 <= j < |w.born| && 0 <= k < |w.born| && j != k ==>
              w.born[j].interaction != w.born[k].interaction && w.born[j].intent != w.born[k].intent
    ensures forall k :: 0 <= k < |w.born| && w.born[k].interaction == id ==>
              && w.born[k].intent in w.site.db.rows && Carries(w.site.db.rows[w.born[k].intent], w.rows[id])
              && (w.rows[id].state.Confirmed? ==> w.rows[id].intent == Some(w.born[k].intent))
  {
    hide TableFits, Runs.Invariant, Carries;
    EveryRunKeepsInvariant(limits, clock, steps, w);
    RowFitsAt(w.rows, id);
    if w.rows[id].state.Confirmed? {
      var b := Birth(id, w.rows[id].intent.value);
      assert b in w.born;
      var n :| 0 <= n < |w.born| && w.born[n] == b;
    }
  }

  /** A chat never has two open interactions, and every stored draft would be accepted for creation. */
  lemma DraftsAreSoundAndAlone(limits: Limits, clock: Instant, steps: seq<Step>, w: World, id: nat, other: nat)
    requires Reaches(Start(clock), limits, steps, w) && id < |w.rows| && other < |w.rows|
    ensures w.rows[id].chat == w.rows[other].chat && IsOpen(w.rows[id].state) && IsOpen(w.rows[other].state) ==> id == other
    ensures w.rows[id].kind.Draft? ==>
              var inp := ToCreateInput(w.rows[id].payload, w.rows[id].owner);
              inp.Some? && Creatable(inp.value)
  {
    hide Linked, Runs.Invariant, Creatable, ToCreateInput;
    EveryRunKeepsInvariant(limits, clock, steps, w);
    RowFitsAt(w.rows, id);
  }

  // ---------------------------------------------------------------- a draft does not change

  lemma StepKeepsTerms(w: World, limits: Limits, s: Step, id: nat)
    requires Invariant(w, limits) && Enabled(w, s) && id < |w.rows| && w.rows[id].kind.Draft?
    ensures var after := Next(w, limits, s).rows;
            id < |after| && after[id].kind.Draft? && SameTerms(w.rows[id], after[id])
  {
    hide TableFits, Linked, Runs.Invariant, Handled, Delivered, Pressed, Created, Runs.Execute, Runs.Enabled, Value;
    match s
    case OnMessage(m, edited, sent) =>
      if Handled(w.rows, m).Some? {
        MessageKeepsTable(w.rows, m, edited, sent);
        assert Follows(w.rows[id], Next(w, limits, s).rows[id]);
      }
    case OnCallback(c, a) =>
      if Pressed(w.rows, c).Answered? {
        PressKeepsTable(w.rows, c);
        assert Follows(w.rows[id], Next(w, limits, s).rows[id]);
      }
    case _ =>
  }

  /** From the moment it is a draft: capability, symbol, quantity and numeric price stay as they are. */
  lemma {:induction false} DraftNeverChanges(w: World, limits: Limits, steps: seq<Step>, end: World, id: nat)
    requires Invariant(w, limits) && Reaches(w, limits, steps, end) && id < |w.rows| && w.rows[id].kind.Draft?
    ensures id < |end.rows| && end.rows[id].kind.Draft? && SameTerms(w.rows[id], end.rows[id])
    decreases |steps|
  {
    hide Invariant, Next, Enabled, Value;
    if steps != [] {
      var next := Next(w, limits, steps[0]);
      StepKeepsInvariant(w, limits, steps[0]);
      StepKeepsTerms(w, limits, steps[0], id);
      DraftNeverChanges(next, limits, steps[1..], end, id);
    }
  }

  // ---------------------------------------------------------------- a lost job

  ghost predicate Awaited(jobs: seq<Job>, id: nat) {
    exists j :: 0 <= j < |jobs| && jobs[j].ToConfirm? && jobs[j].id == id
  }

  ghost predicate Stranded(w: World, id: nat) {
    id < |w.rows| && w.rows[id].state.Confirming? && !Awaited(w.jobs, id)
  }

  /** A failed read after the create command's commit leaves nobody to finish the confirmation. */
  lemma FailedReadStrands(w: World, limits: Limits, c: Callback, a: Attempt)
    requires Invariant(w, limits) && Enabled(w, OnCallback(c, a)) && Pressed(w.rows, c).GoesAhead?
    requires a.commits && !a.readBack && CreatedFor(w.site.db, limits, a, Pressed(w.rows, c).inp).Ok?
    ensures Stranded(Next(w, limits, OnCallback(c, a)), Pressed(w.rows, c).id)
  {
    hide TableFits, Runs.Invariant, Pressed, Created, Runs.Execute, Carries;
    AwaitedIsClaimed(w, Pressed(w.rows, c).id);
  }

  lemma AwaitedIsClaimed(w: World, id: nat)
    requires Linked(w) && id < |w.rows|
    ensures Awaited(w.jobs, id) ==> IsClaimed(w.rows[id].state)
  {
    hide Carries;
    if Awaited(w.jobs, id) {
      var j :| 0 <= j < |w.jobs| && w.jobs[j].ToConfirm? && w.jobs[j].id == id;
      assert JobFits(w, w.jobs[j]);
      var k :| 0 <= k < |w.born| && w.born[k] == Birth(id, w.jobs[j].intent);
      assert BirthFits(w, w.born[k]);
    }
  }

  /** One market order is drafted, shown in message 5, and confirmed; the read back fails. */
  const DRAFTING := OnMessage(
    Message("1", "1", Some(7), 0, false,
            Some(Decision(DraftIntent, Some(BuyMarket), Some("2330"), Some(1), None, [])), Some(Stock)),
    false, Some(5))

  const PRESSING := Callback("1", "1", Some((Confirm, 0)), Some(5), 1)

  const ATTEMPTING := Attempt(0, Some(Stock), 0, true, true, None, true, false)

  lemma DraftIsShown()
    ensures var w := Next(Start(0), Unlimited, DRAFTING);
            && |w.rows| == 1 && w.site == Start(0).site
            && Pressed(w.rows, PRESSING) == GoesAhead(0, CreateInput(7, "2330", MarketBuy, 1, PartialFillAllowed, None, None, None))
  {
    var m := DRAFTING.m;
    assert FindOpen([], "1").None?;
    assert Objection(m.decision.value, m.security).None?;
    assert Handled([], m).Some?;
  }

  lemma FirstIntentIsCreated()
    ensures CreatedFor(EmptyDb(), Unlimited, ATTEMPTING, CreateInput(7, "2330", MarketBuy, 1, PartialFillAllowed, None, None, None)).Ok?
  {
    hide TradingDate, StartsActive;
  }

  /** So a confirmation that nobody will finish is reached. */
  lemma StrandedIsReached()
    ensures exists steps, w :: Reaches(Start(0), Unlimited, steps, w) && Stranded(w, 0)
  {
    hide Invariant, Pressed, Handled, Created, Stranded;
    var start := Start(0);
    var w := Next(start, Unlimited, DRAFTING);
    var last := OnCallback(PRESSING, ATTEMPTING);
    DraftIsShown();
    FirstIntentIsCreated();
    assert Reaches(w, Unlimited, [], w);
    assert [DRAFTING][1..] == [];
    assert Reaches(start, Unlimited, [DRAFTING], w);
    EveryRunKeepsInvariant(Unlimited, 0, [DRAFTING], w);
    assert Enabled(w, last);
    FailedReadStrands(w, Unlimited, PRESSING, ATTEMPTING);
    var end := Next(w, Unlimited, last);
    assert Reaches(end, Unlimited, [], end);
    assert [last][1..] == [] && [DRAFTING, last][1..] == [last];
    assert Reaches(w, Unlimited, [last], end);
    assert Reaches(start, Unlimited, [DRAFTING, last], end);
  }

  lemma StepKeepsStranded(w: World, limits: Limits, s: Step, id: nat)
    requires Invariant(w, limits) && Enabled(w, s) && Stranded(w, id)
    ensures Stranded(Next(w, limits, s), id)
  {
    hide TableFits, Linked, Runs.Invariant, Handled, Delivered, Pressed, Created, Runs.Execute, Runs.Enabled, SameTerms;
    match s
    case OnMessage(m, edited, sent) =>
      if Handled(w.rows, m).Some? {
        MessageKeepsTable(w.rows, m, edited, sent);
        assert Follows(w.rows[id], Next(w, limits, s).rows[id]);
      }
    case OnCallback(c, a) =>
      if Pressed(w.rows, c).Answered? {
        PressKeepsTable(w.rows, c);
        assert Follows(w.rows[id], Next(w, limits, s).rows[id]);
      }
    case _ =>
  }

  /**
   A confirmation whose second commit was lost stays confirming for good, and its chat never
   again has another open interaction.
   */
  lemma {:induction false} LostConfirmationBlocksChat(w: World, limits: Limits, steps: seq<Step>, end: World, id: nat)
    requires Invariant(w, limits) && Reaches(w, limits, steps, end) && Stranded(w, id)
    ensures Stranded(end, id)
    ensures forall k :: 0 <= k < |end.rows| && end.rows[k].chat == end.rows[id].chat && IsOpen(end.rows[k].state) ==> k == id
    decreases |steps|
  {
    hide Next, Enabled, Linked, RowFits, Runs.Invariant;
    if steps != [] {
      StepKeepsInvariant(w, limits, steps[0]);
      StepKeepsStranded(w, limits, steps[0], id);
      LostConfirmationBlocksChat(Next(w, limits, steps[0]), limits, steps[1..], end, id);
    }
  }

  ghost predicate IsConfirmedBy(rows: Rows, id: nat, intent: IntentId) {
    id < |rows| && rows[id].state.Confirmed? && rows[id].intent == Some(intent)
  }

  /** A job that runs on a confirming interaction confirms it, with the intent it carries. */
  lemma JobConfirms(w: World, limits: Limits, k: nat)
    requires Invariant(w, limits) && k < |w.jobs| && w.jobs[k].ToConfirm?
    ensures w.jobs[k].id < |w.rows|
    ensures w.rows[w.jobs[k].id].state.Confirming? ==>
              IsConfirmedBy(Next(w, limits, Finish(k)).rows, w.jobs[k].id, w.jobs[k].intent)
  {
    hide TableFits, Runs.Invariant, Carries;
    assert JobFits(w, w.jobs[k]);
  }

  /** A continuation at whose end the interaction is no longer confirming. */
  ghost predicate Leaves(w: World, limits: Limits, steps: seq<Step>, end: World, id: nat) {
    Reaches(w, limits, steps, end) && id < |end.rows| && !end.rows[id].state.Confirming?
  }

  lemma AwaitedLeaves(w: World, limits: Limits, id: nat)
    requires Invariant(w, limits) && id < |w.rows| && w.rows[id].state.Confirming? && Awaited(w.jobs, id)
    ensures exists steps, end :: Leaves(w, limits, steps, end, id)
  {
    hide Invariant;
    var k :| 0 <= k < |w.jobs| && w.jobs[k].ToConfirm? && w.jobs[k].id == id;
    JobConfirms(w, limits, k);
    var end := Next(w, limits, Finish(k));
    assert [Finish(k)][1..] == [];
    assert Reaches(end, limits, [], end);
    assert Leaves(w, limits, [Finish(k)], end, id);
  }

  /** A confirming interaction can still end exactly if a request is on its way to confirm it. */
  lemma ConfirmationEndsExactlyIfAwaited(w: World, limits: Limits, id: nat)
    requires Invariant(w, limits) && id < |w.rows| && w.rows[id].state.Confirming?
    ensures (exists steps, end :: Leaves(w, limits, steps, end, id)) <==> Awaited(w.jobs, id)
  {
    hide Invariant, Reaches, Awaited;
    if Awaited(w.jobs, id) {
      AwaitedLeaves(w, limits, id);
    } else {
      forall steps, end | Reaches(w, limits, steps, end)
        ensures !Leaves(w, limits, steps, end, id)
      {
        LostConfirmationBlocksChat(w, limits, steps, end, id);
      }
    }
  }

  // ---------------------------------------------------------------- a callback left alone

  function Ending(db: Db, limits: Limits, a: Attempt, inp: CreateInput): Creation
    requires a.id !in db.rows
  {
    var r := CreatedFor(db, limits, a, inp);
    if !a.commits then Failed
    else if r.Ok? then if a.readBack then Made(a.id) else Unread
    else if r.error.DuplicateIntent? then Creation.Duplicate
    else Failed
  }

  /**
   A press answered with an error leaves the draft pending exactly unless the intent was
   committed and only the read after it failed; the intent exists in that case alone.
   */
  lemma ErrorKeepsDraftExactlyIfNotCreated(w: World, limits: Limits, c: Callback, a: Attempt)
    requires Enabled(w, OnCallback(c, a)) && Pressed(w.rows, c).GoesAhead?
    requires ServedReply(w.rows, c, Ending(w.site.db, limits, a, Pressed(w.rows, c).inp))
             == Reply(UserPageError, Some(Pressed(w.rows, c).id), None)
    ensures var p := Pressed(w.rows, c);
            var created := CreatedFor(w.site.db, limits, a, p.inp).Ok?;
            var next := Next(w, limits, OnCallback(c, a));
            && (next.rows[p.id].state.Pending? <==> !(a.commits && created && !a.readBack))
            && (next.born == w.born <==> next.rows[p.id].state.Pending?)
  {
    hide Created, Pressed, Runs.Execute;
  }

  /** When nothing comes between its commits, a confirmation is the whole callback. */
  lemma UninterruptedCallbackIsServed(w: World, limits: Limits, c: Callback, a: Attempt)
    requires Enabled(w, OnCallback(c, a)) && Pressed(w.rows, c).GoesAhead?
    ensures var inp := Pressed(w.rows, c).inp;
            var next := Next(w, limits, OnCallback(c, a));
            var done := if |next.jobs| > |w.jobs| then Next(next, limits, Finish(|w.jobs|)) else next;
            done.rows == Served(w.rows, c, Ending(w.site.db, limits, a, inp)) && done.jobs == w.jobs
  {
    hide Created, Pressed, Runs.Execute;
  }
}
