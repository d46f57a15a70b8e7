/**
 What the chat gets: which messages are taken up and what they leave, which button presses
 go ahead, and that an intent created from a draft does what the draft shows.
 */
module TelegramOutcomes {
  import opened Outcomes
  import opened DecimalText
  import opened Price
  import opened TradingSession
  import opened Intents
  import opened QuoteEvaluation
  import opened IntentStore
  import opened TelegramDesk
  import opened TelegramRuns

  // ---------------------------------------------------------------- the intent is the draft

  /** The terms on display, on the prices of a quote. */
  ghost predicate MeetsShown(x: Interaction, q: Quote) {
    var toBuy, toSell := Either(q.ask, q.last), Either(q.bid, q.last);
    match x.capability
    case BuyLimit => x.payload.price.Some? && toBuy.Some? && toBuy.value <= Value(x.payload.price.value)
    case SellLimit => x.payload.price.Some? && toSell.Some? && toSell.value >= Value(x.payload.price.value)
    case BuyMarket => toBuy.Some?
    case SellMarket => toSell.Some?
  }

  lemma CarriedIntentMeetsShown(i: Intent, x: Interaction, q: Quote, now: Instant)
    requires Carries(i, x) && x.payload.capability == Some(x.capability)
    ensures Evaluate(q, i, now).shouldTrigger <==> IsUsable(q, now) && MeetsShown(x, q)
    ensures i.owner == x.owner && x.payload.symbol == Some(i.symbol) && x.payload.quantity == Some(i.quantity)
    ensures i.mode == if x.capability.BuyMarket? || x.capability.SellMarket? then PartialFillAllowed else SingleNotification
  {
    hide Evaluate, IsUsable, Value;
    TriggersExactlyOnTerms(q, i, now);
  }

  /**
   In every run, the intent created for an interaction is on the symbol and the lots it
   shows, and a quote triggers it exactly when the quote is usable and meets the terms on
   display: to buy at the shown price or less, to sell at it or more, or at any price.
   */
  lemma IntentDoesWhatWasShown(limits: Limits, clock: Instant, steps: seq<Step>, w: World, k: nat, q: Quote, now: Instant)
    requires Reaches(Start(clock), limits, steps, w) && k < |w.born|
    ensures w.born[k].interaction < |w.rows| && w.born[k].intent in w.site.db.rows
    ensures var x, i := w.rows[w.born[k].interaction], w.site.db.rows[w.born[k].intent];
            && (Evaluate(q, i, now).shouldTrigger <==> IsUsable(q, now) && MeetsShown(x, q))
            && i.owner == x.owner && x.payload.symbol == Some(i.symbol) && x.payload.quantity == Some(i.quantity)
            && i.mode == if x.capability.BuyMarket? || x.capability.SellMarket? then PartialFillAllowed else SingleNotification
  {
    hide Evaluate, IsUsable, MeetsShown, Carries, Runs.Invariant;
    EveryRunKeepsInvariant(limits, clock, steps, w);
    assert BirthFits(w, w.born[k]);
    var x, i := w.rows[w.born[k].interaction], w.site.db.rows[w.born[k].intent];
    assert x.payload.capability == Some(x.capability) by { RowFitsAt(w.rows, w.born[k].interaction); }
    CarriedIntentMeetsShown(i, x, q, now);
  }

  // ---------------------------------------------------------------- messages

  /** A complete order: digits for a symbol, lots, and a legal price exactly for a limit. */
  ghost predicate IsComplete(d: Decision, security: Option<SecurityType>) {
    && d.capability.Some? && d.symbol.Some? && d.symbol.value != ""
    && (forall i :: 0 <= i < |d.symbol.value| ==> '0' <= d.symbol.value[i] <= '9')
    && d.quantity.Some? && d.quantity.value > 0 && security.Some?
    && (if d.capability.value.BuyLimit? || d.capability.value.SellLimit?
        then d.price.Some? && Legal(security.value, Value(d.price.value)) else d.price.None?)
  }

  lemma UnopposedExactlyIfComplete(d: Decision, security: Option<SecurityType>)
    ensures Objection(d, security).None? <==> IsComplete(d, security)
  {
    hide Validate, Legal, Value;
    if d.price.Some? && security.Some? && d.quantity.Some? {
      RejectedPriceIsBracketed(security.value, d.quantity.value, Value(d.price.value));
    }
  }

  /** The same order again: prices compared as numbers. */
  ghost predicate Repeats(x: Interaction, d: Decision) {
    && d.capability == Some(x.capability) && d.symbol == x.payload.symbol && d.quantity == x.payload.quantity
    && d.price.Some? == x.payload.price.Some?
    && (d.price.Some? ==> Value(d.price.value) == Value(x.payload.price.value))
  }

  /** A draft on display gives way to nothing but its own repetition. */
  lemma DraftYieldsExactlyToItself(x: Interaction, d: Decision, security: Option<SecurityType>)
    requires x.kind.Draft? && IsGoodDraft(x) && d.verdict.DraftIntent? && IsComplete(d, security)
    ensures !IsDifferentRequest(x, d) <==> Repeats(x, d)
  {
    hide Value, Creatable, Legal;
  }

  /** A question may be answered by anything about the same order. */
  lemma QuestionYieldsExactlyToItsOrder(x: Interaction, d: Decision)
    requires x.kind.Clarification?
    ensures !IsDifferentRequest(x, d) <==>
            d.capability == Some(x.capability) && (d.symbol.None? || x.payload.symbol.None? || d.symbol == x.payload.symbol)
  {
  }

  /** A message to act on: a supported request that asks something back, or a complete one. */
  ghost predicate IsRequest(m: Message) {
    && m.decision.Some? && m.decision.value.capability.Some?
    && (m.decision.value.verdict.NeedsClarification?
        || (m.decision.value.verdict.DraftIntent? && IsComplete(m.decision.value, m.security)))
  }

  /** A row showing the request, open for five minutes from now. */
  ghost predicate Shows(x: Interaction, m: Message, before: Payload)
    requires IsRequest(m)
  {
    var d := m.decision.value;
    && x.chat == m.chat && x.state.Pending? && x.expiresAt == m.now + 5 * 60 * 1_000_000
    && x.capability == d.capability.value && x.payload.capability == d.capability
    && (x.kind.Draft? <==> d.verdict.DraftIntent?) && x.missing == (if x.kind.Draft? then [] else d.missing)
    && x.payload.symbol == (if d.symbol.Some? then d.symbol else before.symbol)
    && x.payload.quantity == (if d.quantity.Some? then d.quantity else before.quantity)
    && (d.price.Some? ==> x.payload.price == d.price)
    && (d.price.None? && (x.capability.BuyLimit? || x.capability.SellLimit?) ==> x.payload.price == before.price)
    && (d.price.None? && (x.capability.BuyMarket? || x.capability.SellMarket?) ==> x.payload.price.None?)
  }

  ghost predicate IsHeard(m: Message) {
    m.configured != "" && m.chat == m.configured && m.owner.Some? && !m.blind
  }

  /** Where the chat has nothing open, a request becomes a new row and any other message leaves no trace. */
  lemma MessageToIdleChat(rows: Rows, m: Message)
    requires IsHeard(m) && FindOpen(rows, m.chat).None?
    ensures Handled(rows, m).Some?
    ensures var after := Handled(rows, m).value.0;
            var reply := Handled(rows, m).value.1;
            && (!IsRequest(m) ==> after == rows && (reply.Silent? || reply.interaction.None?))
            && (IsRequest(m) ==>
                  && reply == Reply(if m.decision.value.verdict.DraftIntent? then AskConfirmation else AskAgain, Some(|rows|), None)
                  && |after| == |rows| + 1 && after[..|rows|] == rows
                  && Shows(after[|rows|], m, NO_PAYLOAD) && after[|rows|].owner == m.owner.value && after[|rows|].intent.None?)
  {
    hide IsComplete, Objection, FindOpen, StrategyFor, IsDifferentRequest;
    if m.decision.Some? {
      UnopposedExactlyIfComplete(m.decision.value, m.security);
    }
  }

  /** Where a row is open, a confirming or mismatching one stays; a matching request renews it for another five minutes. */
  lemma MessageToOpenChat(rows: Rows, m: Message)
    requires IsHeard(m) && FindOpen(rows, m.chat).Some?
    requires var x := rows[FindOpen(rows, m.chat).value]; x.state.Confirming? || m.now < x.expiresAt
    ensures Handled(rows, m).Some?
    ensures var id, after := FindOpen(rows, m.chat).value, Handled(rows, m).value.0;
            var renews := rows[id].state.Pending? && IsRequest(m) && !IsDifferentRequest(rows[id], m.decision.value);
            && (!renews ==> after == rows)
            && (renews ==>
                  && Handled(rows, m).value.1
                     == Reply(if m.decision.value.verdict.DraftIntent? then AskConfirmation else AskAgain, Some(id), rows[id].message)
                  && |after| == |rows| && (forall k :: 0 <= k < |rows| && k != id ==> after[k] == rows[k])
                  && Shows(after[id], m, rows[id].payload) && after[id].owner == rows[id].owner)
  {
    hide IsComplete, Objection, FindOpen, StrategyFor, IsDifferentRequest;
    if m.decision.Some? {
      UnopposedExactlyIfComplete(m.decision.value, m.security);
    }
  }

  /** A row that has run out is closed as expired, and the message starts afresh. */
  lemma MessageAfterExpiry(rows: Rows, m: Message)
    requires TableFits(rows) && IsHeard(m) && FindOpen(rows, m.chat).Some?
    requires var x := rows[FindOpen(rows, m.chat).value]; x.state.Pending? && x.expiresAt <= m.now
    ensures Handled(rows, m).Some?
    ensures var id, after := FindOpen(rows, m.chat).value, Handled(rows, m).value.0;
            && |rows| <= |after| <= |rows| + 1 && after[id] == rows[id].(state := State.Expired)
            && (forall k :: 0 <= k < |rows| && k != id ==> after[k] == rows[k])
            && (IsRequest(m) <==> |after| == |rows| + 1)
            && (IsRequest(m) ==> Shows(after[|rows|], m, NO_PAYLOAD) && after[|rows|].owner == m.owner.value)
  {
    hide IsComplete, Objection, StrategyFor, IsDifferentRequest, RowFits;
    if m.decision.Some? {
      UnopposedExactlyIfComplete(m.decision.value, m.security);
    }
    var id := FindOpen(rows, m.chat).value;
    var marked := Marked(rows, id, State.Expired, m.chat);
    NoneOpenAfter(rows, marked, id, m.chat);
  }

  lemma NoneOpenAfter(rows: Rows, marked: Rows, id: nat, chat: string)
    requires OneOpen(rows) && id < |rows| && rows[id].chat == chat && IsOpen(rows[id].state)
    requires marked == rows[id := rows[id].(state := State.Expired)]
    ensures FindOpen(marked, chat).None?
  {
  }

  // ---------------------------------------------------------------- buttons

  /** The button of a pending row, pressed in its own message before the row ran out. */
  ghost predicate IsPressed(rows: Rows, c: Callback, action: Action, id: nat) {
    && c.configured != "" && c.chat == c.configured && c.data == Some((action, id))
    && id < |rows| && rows[id].chat == c.chat && rows[id].state.Pending?
    && rows[id].message.Some? && c.message == rows[id].message && c.now < rows[id].expiresAt
  }

  /** A press goes ahead exactly on the confirm button of a live draft. */
  lemma ConfirmIsExact(rows: Rows, c: Callback, id: nat)
    requires TableFits(rows)
    ensures (Pressed(rows, c).GoesAhead? && Pressed(rows, c).id == id) <==> (IsPressed(rows, c, Confirm, id) && rows[id].kind.Draft?)
  {
    hide OneOpen, Creatable, ToCreateInput;
    if c.data.Some? && c.data.value.1 < |rows| {
      RowFitsAt(rows, c.data.value.1);
    }
  }

  /** A row is cancelled exactly by its cancel button; until it runs out, no other press that is answered changes it. */
  lemma CancelButtonIsExact(rows: Rows, c: Callback, id: nat)
    requires Pressed(rows, c).Answered? && id < |rows| && rows[id].state.Pending? && c.now < rows[id].expiresAt
    ensures |Pressed(rows, c).rows| == |rows|
    ensures Pressed(rows, c).rows[id]
            == if IsPressed(rows, c, Cancel, id) then rows[id].(state := State.Cancelled) else rows[id]
  {
    hide ToCreateInput;
    if c.data.Some? {
      var d := c.data.value.1;
      assert |Marked(rows, d, State.Expired, c.chat)| == |rows| && |Marked(rows, d, State.Cancelled, c.chat)| == |rows|;
    }
  }

  /** A press in the row's own message is answered by the row's state; a press elsewhere is not answered. */
  lemma PressIsAnsweredByState(rows: Rows, c: Callback, action: Action, id: nat)
    requires c.configured != "" && c.chat == c.configured && c.data == Some((action, id)) && id < |rows| && rows[id].chat == c.chat
    requires Pressed(rows, c).Answered?
    ensures var i, reply := rows[id], Pressed(rows, c).reply;
            if i.message.None? || c.message != i.message then reply.Silent?
            else
              && reply.Reply?
              && (i.state.Confirming? ==> reply.kind.IsConfirming?)
              && (i.state.Confirmed? ==> reply.kind.IsConfirmed?)
              && (i.state.Expired? || (i.state.Pending? && i.expiresAt <= c.now) ==> reply.kind.IsExpired?)
              && (i.state.Cancelled? || (i.state.Pending? && c.now < i.expiresAt && action.Cancel?) ==> reply.kind.IsCancelled?)
              && (i.state.Pending? && i.expiresAt <= c.now ==> Pressed(rows, c).rows == rows[id := i.(state := State.Expired)])
  {
    hide ToCreateInput;
  }

  /** A draft that could not be created is marked cancelled as a duplicate only while it is still pending. */
  lemma DuplicateEndsOnlyPending(w: World, limits: Limits, k: nat)
    requires k < |w.jobs| && w.jobs[k].ToCancel?
    ensures var job, after := w.jobs[k], Next(w, limits, Finish(k)).rows;
            && |after| == |w.rows|
            && (forall i :: 0 <= i < |after| && after[i] != w.rows[i] ==>
                  i == job.id && w.rows[i].state.Pending? && after[i] == w.rows[i].(state := State.Cancelled))
            && (IsPendingIn(w.rows, job.id, job.chat) ==> after[job.id].state.Cancelled?)
  {
  }
}
