/**
 Drafting an intent in a chat: the stored interactions and the handling of messages and
 button presses (src/app/commands/telegram_intent.py,
 src/app/repositories/telegram_intent_repository.py).

 The classifier is a parameter: its decision may be anything. A price is kept as the decimal
 it was printed from.
 */
module TelegramDesk {
  import opened Outcomes
  import opened DecimalText
  import opened Price
  import opened TradingSession
  import opened Intents
  import opened IntentStore

  datatype Capability = BuyLimit | SellLimit | BuyMarket | SellMarket

  predicate IsLimit(c: Capability) {
    c.BuyLimit? || c.SellLimit?
  }

  function StrategyFor(c: Capability): Strategy {
    match c
    case BuyLimit => LimitBuy
    case SellLimit => LimitSell
    case BuyMarket => MarketBuy
    case SellMarket => MarketSell
  }

  function ModeFor(c: Capability): TransactionMode {
    if IsLimit(c) then SingleNotification else PartialFillAllowed
  }

  datatype Verdict = Unsupported | NeedsClarification | DraftIntent | Ambiguous

  /** What a question to the chat may ask for. */
  datatype Field = SymbolField | QuantityField | PriceField

  datatype Decision = Decision(
    verdict: Verdict,
    capability: Option<Capability>,
    symbol: Option<Symbol>,
    quantity: Option<int>,
    price: Option<Dec>,
    missing: seq<Field>)

  /** The keys of the stored payload; an absent key is None. */
  datatype Payload = Payload(
    capability: Option<Capability>,
    strategy: Option<Strategy>,
    symbol: Option<Symbol>,
    quantity: Option<int>,
    price: Option<Dec>)

  datatype Kind = Clarification | Draft

  datatype State = Pending | Confirming | Confirmed | Cancelled | Expired

  datatype Interaction = Interaction(
    owner: UserId,
    chat: string,
    message: Option<int>,
    kind: Kind,
    capability: Capability,
    payload: Payload,
    missing: seq<Field>,
    attempts: nat,
    state: State,
    expiresAt: Instant,
    confirmedAt: Option<Instant>,
    intent: Option<IntentId>)

  /** An interaction's id is its position; rows are never deleted. */
  type Rows = seq<Interaction>

  /** Five minutes, in microseconds. */
  const INTERACTION_TTL: int := 300_000_000

  // ---------------------------------------------------------------- the repository

  predicate IsOpen(s: State) {
    s.Pending? || s.Confirming?
  }

  /** The open interaction of the chat, if there is one. */
  function FindOpen(rows: Rows, chat: string): (r: Option<nat>)
    ensures r.Some? ==> r.value < |rows| && rows[r.value].chat == chat && IsOpen(rows[r.value].state)
    ensures r.None? ==> forall k :: 0 <= k < |rows| && rows[k].chat == chat ==> !IsOpen(rows[k].state)
  {
    if rows == [] then None
    else
      var last := |rows| - 1;
      if rows[last].chat == chat && IsOpen(rows[last].state) then Some(last) else FindOpen(rows[..last], chat)
  }

  predicate IsPendingIn(rows: Rows, id: nat, chat: string) {
    id < |rows| && rows[id].chat == chat && rows[id].state.Pending?
  }

  /** The unique index admits a new pending row only when the chat has none open. */
  function Added(rows: Rows, i: Interaction): Option<Rows> {
    if IsOpen(i.state) && FindOpen(rows, i.chat).Some? then None else Some(rows + [i])
  }

  function Marked(rows: Rows, id: nat, state: State, chat: string): Rows {
    if IsPendingIn(rows, id, chat) then rows[id := rows[id].(state := state)] else rows
  }

  function Claimed(rows: Rows, id: nat, chat: string): Option<Rows> {
    if IsPendingIn(rows, id, chat) then Some(rows[id := rows[id].(state := Confirming)]) else None
  }

  function MarkedConfirmed(rows: Rows, id: nat, chat: string, at: Instant, intent: IntentId): Rows {
    if id < |rows| && rows[id].chat == chat && rows[id].state.Confirming?
    then rows[id := rows[id].(state := Confirmed, confirmedAt := Some(at), intent := Some(intent))]
    else rows
  }

  function Attached(rows: Rows, id: nat, chat: string, message: int): Rows {
    if id < |rows| && rows[id].chat == chat then rows[id := rows[id].(message := Some(message))] else rows
  }

  // ---------------------------------------------------------------- messages

  predicate IsDigits(s: string) {
    s != "" && forall i :: 0 <= i < |s| ==> IsDigit(s[i])
  }

  /** A draft on display may be repeated but not altered; a clarification may be completed. */
  predicate IsDifferentRequest(i: Interaction, d: Decision) {
    || d.capability != Some(i.capability)
    || (i.payload.symbol.Some? && d.symbol.Some? && i.payload.symbol != d.symbol)
    || (i.kind.Draft? &&
        (|| !d.verdict.DraftIntent?
         || (d.quantity.Some? && d.quantity != i.payload.quantity)
         || (d.price.Some? && (i.payload.price.None? || Value(i.payload.price.value) != Value(d.price.value)))))
  }

  datatype ReplyKind =
    | LlmFailure | CurrentDraft | AskAgain | AskConfirmation | FieldError | UserPageError
    | IsConfirming | IsConfirmed | IsExpired | IsCancelled | NotSupported | IntentMade | DuplicateFound

  /** A reply may name the interaction it speaks of and the message that shows it. */
  datatype Reply = Silent | Reply(kind: ReplyKind, interaction: Option<nat>, message: Option<int>)

  function Says(kind: ReplyKind): Reply {
    Reply(kind, None, None)
  }

  /** What is wrong with a draft, if anything; `security` is what the symbol lookup found. */
  function Objection(d: Decision, security: Option<SecurityType>): Option<ReplyKind> {
    if d.capability.None? then Some(NotSupported)
    else if d.symbol.None? || !IsDigits(d.symbol.value) then Some(FieldError)
    else if d.quantity.None? || d.quantity.value <= 0 then Some(FieldError)
    else if IsLimit(d.capability.value) != d.price.Some? then Some(FieldError)
    else if security.None? then Some(UserPageError)
    else if d.price.Some? && Validate(security.value, d.quantity.value, Value(d.price.value)).Err? then Some(UserPageError)
    else None
  }

  function OrElse<T>(a: Option<T>, b: Option<T>): Option<T> {
    if a.Some? then a else b
  }

  /** The decision's values over those already stored. */
  function PayloadFrom(d: Decision, c: Capability, previous: Payload): Payload {
    Payload(
      Some(c), Some(StrategyFor(c)), OrElse(d.symbol, previous.symbol), OrElse(d.quantity, previous.quantity),
      if d.price.Some? then d.price else if IsLimit(c) then previous.price else None)
  }

  const NO_PAYLOAD := Payload(None, None, None, None, None)

  /** Saving over the pending interaction, or as a new one; None when the index refuses it. */
  function Saved(rows: Rows, owner: UserId, chat: string, pending: Option<nat>, d: Decision, c: Capability, kind: Kind,
                 now: Instant): Option<(Rows, nat)>
    requires pending.Some? ==> pending.value < |rows|
  {
    var payload := PayloadFrom(d, c, if pending.Some? then rows[pending.value].payload else NO_PAYLOAD);
    var missing := if kind.Draft? then [] else d.missing;
    var attempts := if pending.Some? then rows[pending.value].attempts + 1 else 1;
    if pending.Some? && IsPendingIn(rows, pending.value, chat) then
      var row := rows[pending.value].(kind := kind, capability := c, payload := payload, missing := missing,
                                      attempts := attempts, expiresAt := now + INTERACTION_TTL);
      Some((rows[pending.value := row], pending.value))
    else
      var row := Interaction(owner, chat, None, kind, c, payload, missing, attempts, Pending, now + INTERACTION_TTL, None, None);
      var added := Added(rows, row);
      if added.None? then None else Some((added.value, |rows|))
  }

  /**
   What a message meets. `decision` is None when the classifier failed. `blind` says that
   the look-up for an open interaction came before another request committed one.
   */
  datatype Message = Message(
    chat: string,
    configured: string,
    owner: Option<UserId>,
    now: Instant,
    blind: bool,
    decision: Option<Decision>,
    security: Option<SecurityType>)

  function ShowCurrent(rows: Rows, pending: Option<nat>): Reply
    requires pending.Some? ==> pending.value < |rows|
  {
    if pending.Some? then Reply(CurrentDraft, pending, rows[pending.value].message) else Silent
  }

  function SavedReply(saved: (Rows, nat), kind: Kind): Reply
    requires saved.1 < |saved.0|
  {
    Reply(if kind.Draft? then AskConfirmation else AskAgain, Some(saved.1), saved.0[saved.1].message)
  }

  /** What follows the look-up: `pending` is unexpired, or there is none. */
  function Decided(rows: Rows, m: Message, owner: UserId, pending: Option<nat>): Option<(Rows, Reply)>
    requires pending.Some? ==> pending.value < |rows|
  {
    if m.decision.None? then Some((rows, Says(LlmFailure)))
    else
      var d := m.decision.value;
      if d.verdict.Unsupported? then Some((rows, Silent))
      else if d.verdict.Ambiguous? || d.capability.None? then Some((rows, ShowCurrent(rows, pending)))
      else if pending.Some? && IsDifferentRequest(rows[pending.value], d) then Some((rows, ShowCurrent(rows, pending)))
      else
        var kind := if d.verdict.DraftIntent? then Draft else Clarification;
        if kind.Draft? && Objection(d, m.security).Some? then Some((rows, Says(Objection(d, m.security).value)))
        else
          var saved := Saved(rows, owner, m.chat, pending, d, d.capability.value, kind, m.now);
          if saved.None? then None else Some((saved.value.0, SavedReply(saved.value, kind)))
  }

  /** Handling a message; None when the transaction is rolled back. */
  function Handled(rows: Rows, m: Message): Option<(Rows, Reply)> {
    if m.configured == "" || m.chat != m.configured || m.owner.None? then Some((rows, Silent))
    else
      var found := if m.blind then None else FindOpen(rows, m.chat);
      if found.Some? && rows[found.value].state.Confirming? then
        Some((rows, Reply(IsConfirming, found, rows[found.value].message)))
      else if found.Some? && rows[found.value].expiresAt <= m.now then
        Decided(Marked(rows, found.value, State.Expired, m.chat), m, m.owner.value, None)
      else Decided(rows, m, m.owner.value, found)
  }

  /** Sending the reply: an edit of the message shown, or a new one whose number is stored. */
  function Delivered(rows: Rows, chat: string, r: Reply, edited: bool, sent: Option<int>): Rows {
    if r.Silent? || (r.message.Some? && edited) || r.interaction.None? || sent.None? then rows
    else Attached(rows, r.interaction.value, chat, sent.value)
  }

  // ---------------------------------------------------------------- buttons

  datatype Action = Confirm | Cancel

  /** `data` is None when the callback text does not parse. */
  datatype Callback = Callback(chat: string, configured: string, data: Option<(Action, nat)>, message: Option<int>, now: Instant)

  /** The input of the create command, or None where the payload is malformed. */
  function ToCreateInput(p: Payload, owner: UserId): Option<CreateInput> {
    if p.capability.None? || p.strategy != Some(StrategyFor(p.capability.value)) || p.symbol.None? then None
    else if p.quantity.None? || p.quantity.value <= 0 then None
    else if IsLimit(p.capability.value) != p.price.Some? then None
    else Some(CreateInput(owner, p.symbol.value, StrategyFor(p.capability.value), p.quantity.value, ModeFor(p.capability.value),
                          p.price, None, None))
  }

  /** Either the callback is answered, or it goes on to create the intent. */
  datatype Press = Answered(rows: Rows, reply: Reply) | GoesAhead(id: nat, inp: CreateInput)

  function Pressed(rows: Rows, c: Callback): (r: Press)
    ensures r.GoesAhead? ==> IsPendingIn(rows, r.id, c.chat) && rows[r.id].kind.Draft?
    ensures r.GoesAhead? ==> c.message.Some? && c.message == rows[r.id].message && c.now < rows[r.id].expiresAt
  {
    if c.configured == "" || c.chat != c.configured then Answered(rows, Silent)
    else if c.data.None? then Answered(rows, Says(NotSupported))
    else
      var (action, id) := c.data.value;
      if id >= |rows| || rows[id].chat != c.chat then Answered(rows, Says(IsExpired))
      else
        var i := rows[id];
        if i.message.None? || c.message != i.message then Answered(rows, Silent)
        else if i.state.Confirming? then Answered(rows, Reply(IsConfirming, Some(id), None))
        else if i.state.Confirmed? then Answered(rows, Says(IsConfirmed))
        else if i.state.Expired? then Answered(rows, Says(IsExpired))
        else if i.state.Cancelled? then Answered(rows, Says(IsCancelled))
        else if i.expiresAt <= c.now then Answered(Marked(rows, id, State.Expired, c.chat), Says(IsExpired))
        else if action.Cancel? then Answered(Marked(rows, id, State.Cancelled, c.chat), Reply(IsCancelled, Some(id), None))
        else if i.kind.Clarification? then Answered(rows, Reply(NotSupported, Some(id), None))
        else
          var inp := ToCreateInput(i.payload, i.owner);
          if inp.None? then Answered(rows, Reply(FieldError, Some(id), None)) else GoesAhead(id, inp.value)
  }

  /** How the create command ended; `Unread` is a failure after its commit. */
  datatype Creation = Made(intent: IntentId) | Unread | Duplicate | Failed

  /** A whole callback that nothing interrupts. */
  function Served(rows: Rows, c: Callback, creation: Creation): Rows {
    var p := Pressed(rows, c);
    if p.Answered? then p.rows
    else
      match creation
      case Made(intent) => MarkedConfirmed(Claimed(rows, p.id, c.chat).value, p.id, c.chat, c.now, intent)
      case Unread => Claimed(rows, p.id, c.chat).value
      case Duplicate => Marked(rows, p.id, State.Cancelled, c.chat)
      case Failed => rows
  }

  function ServedReply(rows: Rows, c: Callback, creation: Creation): Reply {
    var p := Pressed(rows, c);
    if p.Answered? then p.reply
    else
      match creation
      case Made(_) => Reply(IntentMade, Some(p.id), rows[p.id].message)
      case Duplicate => Reply(DuplicateFound, Some(p.id), None)
      case _ => Reply(UserPageError, Some(p.id), None)
  }

  // ---------------------------------------------------------------- the table, updated in place

  class Table {
    var rows: Rows

    constructor ()
      ensures rows == []
    {
      rows := [];
    }

    /** The status changes exactly if the row is pending in the chat, and nothing else changes. */
    method MarkStatus(id: nat, state: State, chat: string) returns (done: bool)
      modifies this
      ensures rows == Marked(old(rows), id, state, chat)
      ensures done == IsPendingIn(old(rows), id, chat) && (!done ==> rows == old(rows))
      ensures |rows| == |old(rows)| && forall k :: 0 <= k < |rows| && k != id ==> rows[k] == old(rows)[k]
      ensures done ==> rows[id] == old(rows)[id].(state := state)
    {
      done := id < |rows| && rows[id].chat == chat && rows[id].state.Pending?;
      if done {
        rows := rows[id := rows[id].(state := state)];
      }
    }

    /** Of any number of claims on a pending row the first succeeds and makes all others fail. */
    method ClaimConfirming(id: nat, chat: string) returns (done: bool)
      modifies this
      ensures if done then Claimed(old(rows), id, chat) == Some(rows) else Claimed(old(rows), id, chat) == None && rows == old(rows)
      ensures |rows| == |old(rows)| && forall k :: 0 <= k < |rows| && k != id ==> rows[k] == old(rows)[k]
      ensures done ==> rows[id] == old(rows)[id].(state := Confirming)
      ensures Claimed(rows, id, chat).None?
    {
      done := id < |rows| && rows[id].chat == chat && rows[id].state.Pending?;
      if done {
        rows := rows[id := rows[id].(state := Confirming)];
      }
    }

    /** Only a confirming row of the chat is confirmed, and it then names its intent. */
    method MarkConfirmed(id: nat, chat: string, at: Instant, intent: IntentId) returns (done: bool)
      modifies this
      ensures rows == MarkedConfirmed(old(rows), id, chat, at, intent)
      ensures done == (id < |old(rows)| && old(rows)[id].chat == chat && old(rows)[id].state.Confirming?)
      ensures |rows| == |old(rows)| && forall k :: 0 <= k < |rows| && k != id ==> rows[k] == old(rows)[k]
      ensures if done then rows[id].state.Confirmed? && rows[id].intent == Some(intent) else rows == old(rows)
    {
      done := id < |rows| && rows[id].chat == chat && rows[id].state.Confirming?;
      if done {
        rows := rows[id := rows[id].(state := Confirmed, confirmedAt := Some(at), intent := Some(intent))];
      }
    }

    /** Sending a reply: an edit of the message shown leaves the table alone, a new one is remembered. */
    method Deliver(chat: string, r: Reply, edited: bool, sent: Option<int>)
      modifies this
      ensures rows == Delivered(old(rows), chat, r, edited, sent) && |rows| == |old(rows)|
      ensures forall k :: 0 <= k < |rows| && rows[k] != old(rows)[k] ==>
                r.Reply? && r.interaction == Some(k) && !(r.message.Some? && edited)
                && rows[k] == old(rows)[k].(message := sent) && sent.Some?
    {
      if r.Silent? || (r.message.Some? && edited) {
        return;
      }
      if r.interaction.Some? && sent.Some? {
        Attach(r.interaction.value, chat, sent.value);
      }
    }

    method Attach(id: nat, chat: string, message: int)
      modifies this
      ensures rows == Attached(old(rows), id, chat, message)
    {
      if id < |rows| && rows[id].chat == chat {
        rows := rows[id := rows[id].(message := Some(message))];
      }
    }

    method Save(owner: UserId, chat: string, pending: Option<nat>, d: Decision, c: Capability, kind: Kind, now: Instant)
      returns (id: Option<nat>)
      requires pending.Some? ==> pending.value < |rows|
      modifies this
      ensures var saved := old(Saved(rows, owner, chat, pending, d, c, kind, now));
              if saved.None? then id.None? && rows == old(rows) else id.Some? && saved == Some((rows, id.value))
    {
      var previous, attempts := NO_PAYLOAD, 1;
      if pending.Some? {
        previous, attempts := rows[pending.value].payload, rows[pending.value].attempts + 1;
      }
      var payload, missing := PayloadFrom(d, c, previous), if kind.Draft? then [] else d.missing;
      if pending.Some? && rows[pending.value].chat == chat && rows[pending.value].state.Pending? {
        var row := rows[pending.value];
        rows := rows[pending.value := row.(kind := kind, capability := c, payload := payload, missing := missing,
                                           attempts := attempts, expiresAt := now + INTERACTION_TTL)];
        return pending;
      }
      var open := FindOpen(rows, chat);
      if open.Some? {
        return None;
      }
      id := Some(|rows|);
      rows := rows + [Interaction(owner, chat, None, kind, c, payload, missing, attempts, Pending, now + INTERACTION_TTL, None, None)];
    }

    /** Handling a message and committing; on a refused insert the transaction leaves no trace. */
    method HandleMessage(m: Message) returns (reply: Option<Reply>)
      modifies this
      ensures var after := old(Handled(rows, m));
              if after.None? then reply.None? && rows == old(rows) else reply.Some? && after == Some((rows, reply.value))
    {
      if m.configured == "" || m.chat != m.configured || m.owner.None? {
        return Some(Silent);
      }
      var before := rows;
      var pending: Option<nat> := None;
      if !m.blind {
        pending := FindOpen(rows, m.chat);
      }
      if pending.Some? && rows[pending.value].state.Confirming? {
        return Some(Reply(IsConfirming, pending, rows[pending.value].message));
      }
      if pending.Some? && rows[pending.value].expiresAt <= m.now {
        var _ := MarkStatus(pending.value, State.Expired, m.chat);
        pending := None;
      }
      reply := Decide(m, m.owner.value, pending);
      if reply.None? {
        rows := before;
      }
    }

    method Decide(m: Message, owner: UserId, pending: Option<nat>) returns (reply: Option<Reply>)
      requires pending.Some? ==> pending.value < |rows|
      modifies this
      ensures var after := old(Decided(rows, m, owner, pending));
              if after.None? then reply.None? && rows == old(rows) else reply.Some? && after == Some((rows, reply.value))
    {
      if m.decision.None? {
        return Some(Says(LlmFailure));
      }
      var d := m.decision.value;
      if d.verdict.Unsupported? {
        return Some(Silent);
      }
      if d.verdict.Ambiguous? || d.capability.None? || (pending.Some? && IsDifferentRequest(rows[pending.value], d)) {
        return Some(ShowCurrent(rows, pending));
      }
      var kind := if d.verdict.DraftIntent? then Draft else Clarification;
      if kind.Draft? {
        var objection := Objection(d, m.security);
        if objection.Some? {
          return Some(Says(objection.value));
        }
      }
      var id := Save(owner, m.chat, pending, d, d.capability.value, kind, m.now);
      if id.None? {
        return None;
      }
      reply := Some(SavedReply((rows, id.value), kind));
    }

    /**
     A whole callback; `creation` is how the create command ends if it is called. Only the
     pending row the button belongs to can change, and only in its status and what a
     confirmation adds; it is confirmed exactly by the intent that was made.
     */
    method HandleCallback(c: Callback, creation: Creation) returns (reply: Reply)
      modifies this
      ensures rows == Served(old(rows), c, creation) && reply == ServedReply(old(rows), c, creation)
      ensures |rows| == |old(rows)|
      ensures forall k :: 0 <= k < |rows| && rows[k] != old(rows)[k] ==>
                && IsPendingIn(old(rows), k, c.chat) && c.data.Some? && c.data.value.1 == k && c.message == old(rows)[k].message
                && rows[k] == old(rows)[k].(state := rows[k].state, confirmedAt := rows[k].confirmedAt, intent := rows[k].intent)
                && (rows[k].state.Confirmed? ==> creation.Made? && rows[k].intent == Some(creation.intent))
                && (rows[k].state.Confirming? ==> creation.Unread?)
    {
      if c.configured == "" || c.chat != c.configured {
        return Silent;
      }
      if c.data.None? {
        return Says(NotSupported);
      }
      var (action, id) := c.data.value;
      if id >= |rows| || rows[id].chat != c.chat {
        return Says(IsExpired);
      }
      var i := rows[id];
      if i.message.None? || c.message != i.message {
        return Silent;
      }
      if i.state.Confirming? {
        return Reply(IsConfirming, Some(id), None);
      }
      if !i.state.Pending? {
        return Says(if i.state.Confirmed? then IsConfirmed else if i.state.Expired? then IsExpired else IsCancelled);
      }
      if i.expiresAt <= c.now {
        var _ := MarkStatus(id, State.Expired, c.chat);
        return Says(IsExpired);
      }
      if action.Cancel? {
        var _ := MarkStatus(id, State.Cancelled, c.chat);
        return Reply(IsCancelled, Some(id), None);
      }
      if i.kind.Clarification? {
        return Reply(NotSupported, Some(id), None);
      }
      var inp := ToCreateInput(i.payload, i.owner);
      if inp.None? {
        return Reply(FieldError, Some(id), None);
      }
      var before := rows;
      var _ := ClaimConfirming(id, c.chat);
      match creation
      case Made(intent) =>
        var _ := MarkConfirmed(id, c.chat, c.now, intent);
        reply := Reply(IntentMade, Some(id), i.message);
      case Unread =>
        reply := Reply(UserPageError, Some(id), None);
      case Duplicate =>
        rows := before;
        var _ := MarkStatus(id, State.Cancelled, c.chat);
        reply := Reply(DuplicateFound, Some(id), None);
      case Failed =>
        rows := before;
        reply := Reply(UserPageError, Some(id), None);
    }
  }
}
