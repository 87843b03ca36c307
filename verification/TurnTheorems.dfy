/** What a displayed turn promises about the events it was made from. */
module TurnTheorems {
  import opened Options
  import opened Protocol
  import opened Sequences
  import Transcript
  import Projection
  import ProjectionTheorems
  import CallOutcome
  import opened Grouping
  import RowOrder
  import opened Turns

  function TurnItems(events: seq<Event>, receipts: Transcript.Receipts): seq<Item> {
    Transcript.Transcript(events, receipts)
  }

  function TurnDisplay(events: seq<Event>, receipts: Transcript.Receipts): seq<Activity> {
    Display(Transcript.Terminals(events), TurnItems(events, receipts))
  }

  // ---------------------------------------------------------------- rows are distinct

  lemma {:induction false} WithoutKeysGrow(items: seq<Activity>, drop: Activity -> bool)
    requires RowOrder.KeysGrow(items)
    ensures RowOrder.KeysGrow(Without(items, drop))
  {
    if items != [] {
      var n := |items| - 1;
      WithoutKeysGrow(items[..n], drop);
      var kept := Without(items[..n], drop);
      forall r | r in kept ensures RowOrder.ActivityKey(r) < RowOrder.ActivityKey(items[n]) {
        assert r in items[..n];
      }
    }
  }

  /** How a turn's items come from the displayed rows. */
  lemma ItemsOfTurn(events: seq<Event>, receipts: Transcript.Receipts) returns (body: seq<Activity>)
    ensures var rows := Without(TurnDisplay(events, receipts), IsHiddenNotice);
      body == rows || (rows != [] && body == rows[1..])
    ensures var items := TurnOf(events, receipts).items;
      items == body || items == Without(body, IsStoppedState)
  {
    var rows := Without(TurnDisplay(events, receipts), IsHiddenNotice);
    body := if TurnOf(events, receipts).user.Some? then rows[1..] else rows;
  }

  lemma KeysGrowDistinct(items: seq<Activity>)
    requires RowOrder.KeysGrow(items)
    ensures Distinct(items)
  {
  }

  lemma TurnRowsAreDistinct(events: seq<Event>, receipts: Transcript.Receipts)
    requires Transcript.EventsIncrease(events)
    ensures RowOrder.KeysGrow(TurnOf(events, receipts).items)
    ensures Distinct(TurnOf(events, receipts).items)
  {
    var shown := TurnDisplay(events, receipts);
    Transcript.TranscriptIncreases(events, receipts);
    RowOrder.DisplayKeysGrow(Transcript.Terminals(events), TurnItems(events, receipts));
    WithoutKeysGrow(shown, IsHiddenNotice);
    var body := ItemsOfTurn(events, receipts);
    WithoutKeysGrow(body, IsStoppedState);
    KeysGrowDistinct(TurnOf(events, receipts).items);
  }

  // ---------------------------------------------------------------- nothing is lost

  /** Every row of the pass is the turn's own message, is left out by name, or is folded or visible. */
  lemma NoRowIsLost(events: seq<Event>, receipts: Transcript.Receipts, row: Activity)
    requires row in TurnDisplay(events, receipts) && !IsHiddenNotice(row)
    ensures var turn := TurnOf(events, receipts);
      || (row.Plain? && turn.user == Some(row.item))
      || (turn.stopped && IsStoppedState(row))
      || row in PartOf(turn.segments, true)
      || row in PartOf(turn.segments, false)
  {
    var turn := TurnOf(events, receipts);
    var rows := Without(TurnDisplay(events, receipts), IsHiddenNotice);
    assert row in rows;
    if row in turn.items {
      var i :| 0 <= i < |turn.items| && turn.items[i] == row;
      var folded := Folds(turn.stopped, turn.hasFinal, FinalIndex(turn.items), row, i);
      PartIs(turn.stopped, turn.hasFinal, turn.items, folded, row);
    } else if turn.user.Some? && row != rows[0] {
      assert row in rows[1..];
    }
  }

  /**
   * A confirmed reply is wholly visible at the end of its turn, and it is confirmed only when the turn
   * completed and every approval and question in it is settled.
   */
  lemma ConfirmedReplyIsShown(events: seq<Event>, receipts: Transcript.Receipts)
    requires Transcript.EventsIncrease(events) && TurnOf(events, receipts).hasFinal
    ensures var turn := TurnOf(events, receipts);
      && turn.reply != []
      && (exists front, k :: 0 <= k < |turn.items| && PartOf(turn.segments, false) == front + turn.items[k..]
                             && Assistants(turn.items[k..]) == turn.reply)
      && (forall r | r in turn.items :: !IsUnresolved(r))
      && LastState(events) == Some(Finished)
  {
    var turn := TurnOf(events, receipts);
    TurnRowsAreDistinct(events, receipts);
    FinalReplyIsVisible(turn.items);
    var front :| PartOf(SegmentsOf(false, true, turn.items), false) == front + turn.items[FinalIndex(turn.items)..];
    assert PartOf(turn.segments, false) == front + turn.items[FinalIndex(turn.items)..];
  }

  // ---------------------------------------------------------------- a running tool is really running

  lemma {:induction false} StandingIs(items: seq<Item>, row: Item)
    ensures row in Transcript.StandingItems(items) <==> row in items && Transcript.StandingItem(row)
  {
    if items != [] {
      var n := |items| - 1;
      assert items == items[..n] + [items[n]];
      StandingIs(items[..n], row);
    }
  }

  /** The event stands and makes this row. */
  ghost predicate Makes(index: Transcript.Index, e: Event, row: Item) {
    Transcript.Stands(e.event) && Transcript.RowOf(index, e) == Some(row)
  }

  lemma StandingGrows(index: Transcript.Index, events: seq<Event>, e: Event, row: Item)
    ensures row in Transcript.StandingEvents(index, events + [e])
            <==> row in Transcript.StandingEvents(index, events) || Makes(index, e, row)
  {
    assert (events + [e])[..|events|] == events;
    assert Transcript.Stands(e.event) ==> Transcript.RowOf(index, e).Some?;
  }

  lemma {:induction false} StandingEventIs(index: Transcript.Index, events: seq<Event>, row: Item)
    ensures row in Transcript.StandingEvents(index, events) <==> exists e :: e in events && Makes(index, e, row)
  {
    if events != [] {
      var front, last := events[..|events| - 1], events[|events| - 1];
      assert events == front + [last];
      StandingEventIs(index, front, row);
      StandingGrows(index, front, last, row);
      assert last in events;
    }
  }

  /** Events that stand are rows, and rows that stand are events. */
  lemma RowsAreEvents(events: seq<Event>, receipts: Transcript.Receipts, row: Item)
    requires Transcript.StandingItem(row)
    ensures row in TurnItems(events, receipts)
            <==> exists e :: e in events && Makes(Transcript.IndexOf(events, receipts), e, row)
  {
    Transcript.StandingRowsSurvive(events, receipts);
    StandingIs(TurnItems(events, receipts), row);
    StandingEventIs(Transcript.IndexOf(events, receipts), events, row);
  }

  /** After this event no state ends the turn and no message begins another. */
  ghost predicate StillRunning(events: seq<Event>, e: Event) {
    forall later | later in events && later.seqNo > e.seqNo :: !IsTerminal(later.event) && !later.event.User?
  }

  lemma UserEventHasRow(events: seq<Event>, receipts: Transcript.Receipts, later: Event) returns (m: nat)
    requires later in events && later.event.User?
    ensures var items := TurnItems(events, receipts);
      m < |items| && items[m].key == later.seqNo && Projection.EndsTurn(items[m])
  {
    var index, items := Transcript.IndexOf(events, receipts), TurnItems(events, receipts);
    var row := Transcript.UserRow(index, later);
    assert Makes(index, later, row);
    RowsAreEvents(events, receipts, row);
    m :| 0 <= m < |items| && items[m] == row;
  }

  lemma UserEventsAreEarlier(events: seq<Event>, receipts: Transcript.Receipts, k: nat, later: Event)
    requires var items := TurnItems(events, receipts);
      && KeysIncrease(items) && k < |items|
      && (forall m | k < m < |items| :: !Projection.EndsTurn(items[m]))
    requires later in events && later.event.User?
    ensures later.seqNo <= TurnItems(events, receipts)[k].key
  {
    var items := TurnItems(events, receipts);
    var m := UserEventHasRow(events, receipts, later);
    assert m <= k;
  }

  lemma OpenCallIsRunning(events: seq<Event>, receipts: Transcript.Receipts, k: nat, e: Event)
    requires var items := TurnItems(events, receipts);
      && KeysIncrease(items) && k < |items| && ProjectionTheorems.IsCall(items[k])
      && ProjectionTheorems.StillOpen(Transcript.Terminals(events), items, k)
      && items[k].key == e.seqNo
    ensures StillRunning(events, e)
  {
    var terminal, items := Transcript.Terminals(events), TurnItems(events, receipts);
    assert forall end | end in terminal :: end <= e.seqNo;
    forall later | later in events && later.seqNo > e.seqNo ensures !IsTerminal(later.event) && !later.event.User? {
      assert IsTerminal(later.event) ==> later.seqNo in terminal;
      if later.event.User? {
        UserEventsAreEarlier(events, receipts, k, later);
      }
    }
  }

  /** A row carries the number and the event of what makes it. */
  lemma MakesItem(index: Transcript.Index, e: Event, row: Item)
    requires Makes(index, e, row)
    ensures e.seqNo == row.key && (row.UserItem? ==> e.event.User?) && (row.EventItem? ==> e.event == row.value)
  {
  }

  lemma CallEvent(events: seq<Event>, receipts: Transcript.Receipts, row: Item) returns (e: Event)
    requires row in TurnItems(events, receipts) && ProjectionTheorems.IsCall(row)
    ensures e in events && e.event == row.value && e.seqNo == row.key
  {
    RowsAreEvents(events, receipts, row);
    e :| e in events && Makes(Transcript.IndexOf(events, receipts), e, row);
    MakesItem(Transcript.IndexOf(events, receipts), e, row);
  }

  /**
   * End to end: a tool that a turn shows as pending is a call of that turn after which the turn neither
   * reached a terminal state nor received another message.
   */
  lemma PendingToolIsRunning(events: seq<Event>, receipts: Transcript.Receipts, t: nat) returns (e: Event)
    requires Transcript.EventsIncrease(events)
    requires var st := Projection.Project(Transcript.Terminals(events), TurnItems(events, receipts));
      t < |st.tools| && st.tools[t].status == Projection.Pending
    ensures e in events && e.event.ToolCall? && StillRunning(events, e)
    ensures var st := Projection.Project(Transcript.Terminals(events), TurnItems(events, receipts));
      st.tools[t].key == e.seqNo
  {
    var terminal, items := Transcript.Terminals(events), TurnItems(events, receipts);
    Transcript.TranscriptIncreases(events, receipts);
    var k := ProjectionTheorems.PendingIsStillOpen(terminal, items, t);
    e := CallEvent(events, receipts, items[k]);
    OpenCallIsRunning(events, receipts, k, e);
  }

  // ---------------------------------------------------------------- a waiting tool is really undecided

  predicate Resolves(e: Event, ask: EventKind)
    requires ask.Approval? || ask.Question?
  {
    if ask.Approval? then e.event.ApprovalResolved? && e.event.requestId == ask.requestId
    else e.event.QuestionResolved? && e.event.requestId == ask.requestId
  }

  lemma {:induction false} DecisionsAre(events: seq<Event>, ask: EventKind)
    requires ask.Approval?
    ensures ask.requestId in Transcript.Decisions(events) <==> exists e :: e in events && Resolves(e, ask)
  {
    if events != [] {
      var front, last := events[..|events| - 1], events[|events| - 1];
      assert events == front + [last];
      DecisionsAre(front, ask);
      assert last in events;
    }
  }

  lemma {:induction false} RepliesAre(events: seq<Event>, ask: EventKind)
    requires ask.Question?
    ensures ask.requestId in Transcript.Replies(events) <==> exists e :: e in events && Resolves(e, ask)
  {
    if events != [] {
      var front, last := events[..|events| - 1], events[|events| - 1];
      assert events == front + [last];
      RepliesAre(front, ask);
      assert last in events;
    }
  }

  /** No event of the log decides this approval or question, and no state ends its turn after it. */
  ghost predicate StillUndecided(events: seq<Event>, e: Event)
    requires e.event.Approval? || e.event.Question?
  {
    && (forall r | r in events :: !Resolves(r, e.event))
    && (forall end | end in events && IsTerminal(end.event) :: end.seqNo <= e.seqNo)
  }

  /** An approval or question waits exactly as long as the log holds neither a decision nor the end of its turn. */
  lemma AskWaitsIff(events: seq<Event>, receipts: Transcript.Receipts, e: Event)
    requires e in events && (e.event.Approval? || e.event.Question?)
    ensures var row := Transcript.RowOf(Transcript.IndexOf(events, receipts), e);
      row.Some? && (CallOutcome.Waits(row.value) <==> StillUndecided(events, e))
  {
    var index := Transcript.IndexOf(events, receipts);
    assert forall end | end in events && IsTerminal(end.event) :: end.seqNo in index.terminal;
    if e.event.Approval? {
      DecisionsAre(events, e.event);
    } else {
      RepliesAre(events, e.event);
    }
  }

  /** What an ask of the rows goes back to. */
  lemma AskEvent(events: seq<Event>, receipts: Transcript.Receipts, row: Item) returns (e: Event)
    requires row in TurnItems(events, receipts) && row.EventItem? && (row.value.Approval? || row.value.Question?)
    ensures e in events && e.event == row.value && e.seqNo == row.key
    ensures Transcript.RowOf(Transcript.IndexOf(events, receipts), e) == Some(row)
  {
    RowsAreEvents(events, receipts, row);
    e :| e in events && Makes(Transcript.IndexOf(events, receipts), e, row);
    MakesItem(Transcript.IndexOf(events, receipts), e, row);
  }

  /**
   * End to end: a tool that a turn shows as waiting is asked about by an approval or question of that turn
   * which no event decides and whose turn has not ended.
   */
  lemma WaitingToolIsUndecided(events: seq<Event>, receipts: Transcript.Receipts, t: nat)
    returns (call: Event, ask: Event)
    requires Transcript.EventsIncrease(events)
    requires var st := Projection.Project(Transcript.Terminals(events), TurnItems(events, receipts));
      t < |st.tools| && st.tools[t].status == Projection.Waiting
    ensures call in events && call.event.ToolCall? && ask in events && (ask.event.Approval? || ask.event.Question?)
    ensures ask.event.toolUseId == call.event.id && call.seqNo < ask.seqNo && StillUndecided(events, ask)
    ensures var st := Projection.Project(Transcript.Terminals(events), TurnItems(events, receipts));
      st.tools[t].key == call.seqNo
  {
    var terminal, items := Transcript.Terminals(events), TurnItems(events, receipts);
    Transcript.TranscriptIncreases(events, receipts);
    var k, m := CallOutcome.WaitingIsAsked(terminal, items, t);
    call := CallEvent(events, receipts, items[k]);
    ask := AskEvent(events, receipts, items[m]);
    AskWaitsIff(events, receipts, ask);
  }
}
