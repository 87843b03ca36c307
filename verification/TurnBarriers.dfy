/**
 * What the final reply of a turn cannot reach across, as events: messages, calls, results that no call waits for,
 * and approvals or questions about a call that is open. With it a confirmed turn is described by its events alone.
 */
module TurnBarriers {
  import opened Options
  import opened Protocol
  import opened Sequences
  import Transcript
  import Projection
  import ProjectionTheorems
  import opened OpenCalls
  import opened Grouping
  import RowOrder
  import opened Turns
  import opened TurnTheorems
  import opened ConfirmedTurns

  // ---------------------------------------------------------------- open calls, as events

  /** After this event a call under the id is not open any more. */
  predicate EndsCall(x: Event, id: string) {
    x.event.User? || IsTerminal(x.event)
    || (x.event.ToolCall? && x.event.id == id) || (x.event.ToolResult? && x.event.id == id)
  }

  /** The call event is still open when `at` comes. */
  ghost predicate IsOpenCall(events: seq<Event>, c: Event, id: string, at: Event) {
    && c in events && c.event.ToolCall? && c.event.id == id && c.seqNo < at.seqNo
    && forall x | x in events && c.seqNo < x.seqNo < at.seqNo :: !EndsCall(x, id)
  }

  ghost predicate OpenAt(events: seq<Event>, id: string, at: Event) {
    id != "" && exists c :: IsOpenCall(events, c, id, at)
  }

  /** A result or an ask. */
  predicate IsReply(e: Event) {
    e.event.ToolResult? || IsAskEvent(e)
  }

  // ---------------------------------------------------------------- items and events

  /** The item that a standing event makes, and its place. */
  lemma ItemOf(events: seq<Event>, receipts: Transcript.Receipts, e: Event) returns (m: nat)
    requires e in events && Transcript.Stands(e.event)
    ensures m < |TurnItems(events, receipts)|
    ensures var item := TurnItems(events, receipts)[m];
      && item.key == e.seqNo
      && if e.event.User? then Projection.EndsTurn(item) else item.EventItem? && item.value == e.event
  {
    var index := Transcript.IndexOf(events, receipts);
    var row := Transcript.RowOf(index, e).value;
    assert Makes(index, e, row);
    RowsAreEvents(events, receipts, row);
    m :| 0 <= m < |TurnItems(events, receipts)| && TurnItems(events, receipts)[m] == row;
  }

  /** The event that made a standing item. */
  lemma EventOf(events: seq<Event>, receipts: Transcript.Receipts, row: Item) returns (e: Event)
    requires row in TurnItems(events, receipts) && Transcript.StandingItem(row)
    ensures e in events && e.seqNo == row.key
    ensures (row.UserItem? ==> e.event.User?) && (row.EventItem? ==> e.event == row.value)
  {
    RowsAreEvents(events, receipts, row);
    e :| e in events && Makes(Transcript.IndexOf(events, receipts), e, row);
    MakesItem(Transcript.IndexOf(events, receipts), e, row);
  }

  // ---------------------------------------------------------------- held ids are open calls

  ghost predicate At(events: seq<Event>, receipts: Transcript.Receipts, m: nat, b: Event) {
    && Transcript.EventsIncrease(events) && KeysIncrease(TurnItems(events, receipts))
    && m < |TurnItems(events, receipts)| && b in events && IsReply(b)
    && TurnItems(events, receipts)[m].EventItem? && TurnItems(events, receipts)[m].value == b.event
    && TurnItems(events, receipts)[m].key == b.seqNo
  }

  lemma SameSeq(events: seq<Event>, a: Event, b: Event)
    requires Transcript.EventsIncrease(events) && a in events && b in events && a.seqNo == b.seqNo
    ensures a == b
  {
  }

  /** An event between a call and `b` that ends the call stops it in the rows too. */
  lemma EndStops(events: seq<Event>, receipts: Transcript.Receipts, k: nat, m: nat, b: Event, id: string, x: Event)
    requires At(events, receipts, m, b) && k < m && id != ""
    requires x in events && EndsCall(x, id) && TurnItems(events, receipts)[k].key < x.seqNo < b.seqNo
    ensures var terminal, items := Transcript.Terminals(events), TurnItems(events, receipts);
      EndsBy(terminal, items[k].key, items[m])
      || exists j :: k < j < m && StopsAt(terminal, items[k].key, id, items[j])
  {
    var terminal, items := Transcript.Terminals(events), TurnItems(events, receipts);
    if IsTerminal(x.event) {
      assert x.seqNo in terminal;
    } else {
      var j := ItemOf(events, receipts, x);
      assert k < j < m;
      assert StopsAt(terminal, items[k].key, id, items[j]);
    }
  }

  /** A call that is held when `b` comes is open then. */
  lemma HeldCallIsOpen(
    events: seq<Event>, receipts: Transcript.Receipts, k: nat, m: nat, b: Event, id: string, c: Event)
    requires At(events, receipts, m, b) && id != ""
    requires var terminal, items := Transcript.Terminals(events), TurnItems(events, receipts);
      HoldsId(terminal, items, k, m, id) && !EndsBy(terminal, items[k].key, items[m])
    requires c in events && c.event == TurnItems(events, receipts)[k].value
             && c.seqNo == TurnItems(events, receipts)[k].key
    ensures IsOpenCall(events, c, id, b)
  {
    forall x | x in events && c.seqNo < x.seqNo < b.seqNo ensures !EndsCall(x, id) {
      if EndsCall(x, id) {
        EndStops(events, receipts, k, m, b, id, x);
      }
    }
  }

  lemma HeldIsOpen(events: seq<Event>, receipts: Transcript.Receipts, m: nat, b: Event, id: string)
    requires At(events, receipts, m, b) && StaysHeld(Transcript.Terminals(events), TurnItems(events, receipts), m, id)
    ensures OpenAt(events, id, b)
  {
    var terminal, items := Transcript.Terminals(events), TurnItems(events, receipts);
    var k: nat :| HoldsId(terminal, items, k, m, id) && !EndsBy(terminal, items[k].key, items[m]);
    var c := EventOf(events, receipts, items[k]);
    HeldCallIsOpen(events, receipts, k, m, b, id, c);
  }

  lemma TerminalEvent(events: seq<Event>, t: nat) returns (x: Event)
    requires t in Transcript.Terminals(events)
    ensures x in events && IsTerminal(x.event) && x.seqNo == t
  {
    x :| x in events && IsTerminal(x.event) && x.seqNo == t;
  }

  /** An item that stops a call goes back to an event that ends it. */
  lemma StopEnds(events: seq<Event>, receipts: Transcript.Receipts, from: nat, item: Item, id: string)
    returns (x: Event)
    requires item in TurnItems(events, receipts) && from < item.key && id != ""
    requires StopsAt(Transcript.Terminals(events), from, id, item)
    ensures x in events && EndsCall(x, id) && from < x.seqNo <= item.key
    ensures x.seqNo == item.key || IsTerminal(x.event)
  {
    var terminal := Transcript.Terminals(events);
    if t :| t in terminal && from < t <= item.key {
      x := TerminalEvent(events, t);
    } else {
      x := EventOf(events, receipts, item);
    }
  }

  /** Nothing between an open call and `b` stops the call. */
  lemma OpenIsNotStopped(
    events: seq<Event>, receipts: Transcript.Receipts, c: Event, id: string, b: Event, item: Item)
    requires IsOpenCall(events, c, id, b) && id != ""
    requires item in TurnItems(events, receipts) && c.seqNo < item.key < b.seqNo
    ensures !StopsAt(Transcript.Terminals(events), c.seqNo, id, item)
  {
    if StopsAt(Transcript.Terminals(events), c.seqNo, id, item) {
      var x := StopEnds(events, receipts, c.seqNo, item, id);
    }
  }

  lemma OpenIsNotEnded(events: seq<Event>, receipts: Transcript.Receipts, m: nat, b: Event, c: Event, id: string)
    requires At(events, receipts, m, b) && IsOpenCall(events, c, id, b)
    ensures !EndsBy(Transcript.Terminals(events), c.seqNo, TurnItems(events, receipts)[m])
  {
    if t :| t in Transcript.Terminals(events) && c.seqNo < t <= b.seqNo {
      var x := TerminalEvent(events, t);
      if t == b.seqNo {
        SameSeq(events, x, b);
      }
    }
  }

  /** And a call that is open when `b` comes is held then. */
  lemma OpenCallIsHeld(
    events: seq<Event>, receipts: Transcript.Receipts, k: nat, m: nat, b: Event, id: string, c: Event)
    requires At(events, receipts, m, b) && id != "" && IsOpenCall(events, c, id, b)
    requires k < |TurnItems(events, receipts)| && TurnItems(events, receipts)[k].EventItem?
    requires c.event == TurnItems(events, receipts)[k].value && c.seqNo == TurnItems(events, receipts)[k].key
    ensures var terminal, items := Transcript.Terminals(events), TurnItems(events, receipts);
      HoldsId(terminal, items, k, m, id) && !EndsBy(terminal, items[k].key, items[m])
  {
    var terminal, items := Transcript.Terminals(events), TurnItems(events, receipts);
    assert k < m;
    forall j | k < j < m ensures !StopsAt(terminal, items[k].key, id, items[j]) {
      OpenIsNotStopped(events, receipts, c, id, b, items[j]);
    }
    OpenIsNotEnded(events, receipts, m, b, c, id);
  }

  lemma OpenIsHeld(events: seq<Event>, receipts: Transcript.Receipts, m: nat, b: Event, id: string)
    requires At(events, receipts, m, b) && OpenAt(events, id, b)
    ensures StaysHeld(Transcript.Terminals(events), TurnItems(events, receipts), m, id)
  {
    var c :| IsOpenCall(events, c, id, b);
    var k := ItemOf(events, receipts, c);
    OpenCallIsHeld(events, receipts, k, m, b, id, c);
  }

  /** When a result or an ask comes its id is pending exactly if a call event under that id is open. */
  lemma PendingIsOpen(events: seq<Event>, receipts: Transcript.Receipts, m: nat, b: Event, id: string)
    requires At(events, receipts, m, b)
    ensures id in ProjectionTheorems.Ready(Transcript.Terminals(events), TurnItems(events, receipts), m).pending
            <==> OpenAt(events, id, b)
  {
    var terminal, items := Transcript.Terminals(events), TurnItems(events, receipts);
    Transcript.TerminalsIncrease(events);
    PendingIff(terminal, items, m, id);
    if StaysHeld(terminal, items, m, id) {
      HeldIsOpen(events, receipts, m, b, id);
    } else if OpenAt(events, id, b) {
      OpenIsHeld(events, receipts, m, b, id);
    }
  }

  // ---------------------------------------------------------------- barriers, as events

  /** The receipt that is kept of a queued message; it makes the hand-off row. */
  predicate IsHandOff(receipts: Transcript.Receipts, b: Event) {
    && b.event.QueuedMessageSent? && (b.sessionId, b.event.requestId) in receipts
    && receipts[(b.sessionId, b.event.requestId)].1 == b.seqNo
  }

  /** What the final reply cannot reach across, besides the message that opens the turn. */
  ghost predicate IsBarrierEvent(events: seq<Event>, receipts: Transcript.Receipts, b: Event) {
    || IsHandOff(receipts, b)
    || b.event.ToolCall?
    || (b.event.ToolResult? && !OpenAt(events, b.event.id, b))
    || (IsAskEvent(b) && OpenAt(events, b.event.toolUseId, b))
  }

  // ---------------------------------------------------------------- hand-offs

  lemma AddHandOff(index: Transcript.Index, draft: Transcript.Draft, e: Event, row: Item)
    requires row.UserItem?
    ensures row in Transcript.Add(index, draft, e).items
            <==> row in draft.items || Transcript.RowOf(index, e) == Some(row)
  {
    var n := |draft.items| - 1;
    if Transcript.RowOf(index, e).Some? && Transcript.RowOf(index, e).value.AssistantItem? {
      assert n >= 0 ==> draft.items == draft.items[..n] + [draft.items[n]];
    }
  }

  ghost predicate Rendered(index: Transcript.Index, e: Event, row: Item) {
    Transcript.RowOf(index, e) == Some(row)
  }

  lemma {:induction false} BuildHandOff(index: Transcript.Index, events: seq<Event>, row: Item)
    requires row.UserItem?
    ensures row in Transcript.Build(index, events).items <==> exists e :: e in events && Rendered(index, e, row)
    decreases |events|
  {
    if events != [] {
      var front, last := events[..|events| - 1], events[|events| - 1];
      assert events == front + [last];
      BuildHandOff(index, front, row);
      AddHandOff(index, Transcript.Build(index, front), last, row);
      assert last in events;
    }
  }

  lemma RenderedMessage(index: Transcript.Index, e: Event, row: Item)
    requires Rendered(index, e, row) && row.UserItem?
    ensures e.seqNo == row.key && (e.event.User? || IsHandOff(index.receipts, e))
  {
  }

  /** A message row goes back to a message or to a kept receipt. */
  lemma MessageRowIsEvent(events: seq<Event>, receipts: Transcript.Receipts, row: Item) returns (b: Event)
    requires row in TurnItems(events, receipts) && row.UserItem?
    ensures b in events && b.seqNo == row.key && (b.event.User? || IsHandOff(receipts, b))
  {
    var index := Transcript.IndexOf(events, receipts);
    KeepRowsIs(Transcript.Build(index, events).items, row);
    BuildHandOff(index, events, row);
    b :| b in events && Rendered(index, b, row);
    RenderedMessage(index, b, row);
  }

  lemma HandOffIsRow(events: seq<Event>, receipts: Transcript.Receipts, b: Event) returns (row: Item)
    requires b in events && IsHandOff(receipts, b)
    ensures row in TurnItems(events, receipts) && row.UserItem? && row.handoff && row.key == b.seqNo
  {
    var index := Transcript.IndexOf(events, receipts);
    row := UserItem(b.seqNo, b.event.text, b.at, true, false);
    assert Rendered(index, b, row);
    BuildHandOff(index, events, row);
    KeepRowsIs(Transcript.Build(index, events).items, row);
  }

  // ---------------------------------------------------------------- tools and asks of the pass

  lemma PlaceKeepsKeys(st: Projection.Projection, item: Item)
    ensures RowOrder.SameKeys(st.tools, Projection.Place(st, item).tools)
  {
  }

  lemma StepKeepsKeys(terminal: seq<nat>, st: Projection.Projection, item: Item)
    ensures RowOrder.SameKeys(st.tools, Projection.Step(terminal, st, item).tools)
  {
    var ready := Projection.Open(terminal, st, item);
    PlaceKeepsKeys(ready, item);
    forall t | 0 <= t < |st.tools| ensures ready.tools[t].key == st.tools[t].key {
    }
  }

  lemma {:induction false} RunKeepsKeys(terminal: seq<nat>, st: Projection.Projection, items: seq<Item>)
    ensures RowOrder.SameKeys(st.tools, Projection.Run(terminal, st, items).tools)
    decreases |items|
  {
    if items != [] {
      StepKeepsKeys(terminal, st, items[0]);
      RunKeepsKeys(terminal, Projection.Step(terminal, st, items[0]), items[1..]);
    }
  }

  /** What the pass holds after item `m`, it holds to the end. */
  lemma KeepsFrom(terminal: seq<nat>, items: seq<Item>, m: nat)
    requires m < |items|
    ensures var next, end := Projection.Place(ProjectionTheorems.Ready(terminal, items, m), items[m]),
                             Projection.Project(terminal, items);
      RowOrder.SameKeys(next.tools, end.tools) && next.rows <= end.rows
  {
    ProjectionTheorems.RunSnoc(terminal, items, m);
    assert items == items[..m + 1] + items[m + 1..];
    ProjectionTheorems.RunAppend(terminal, Projection.EMPTY, items[..m + 1], items[m + 1..]);
    RunKeepsKeys(terminal, Projection.Run(terminal, Projection.EMPTY, items[..m + 1]), items[m + 1..]);
    RunKeepsRows(terminal, Projection.Run(terminal, Projection.EMPTY, items[..m + 1]), items[m + 1..]);
  }

  lemma ReadyIsValid(terminal: seq<nat>, items: seq<Item>, m: nat)
    requires m < |items|
    ensures Projection.Valid(ProjectionTheorems.Ready(terminal, items, m))
  {
    Projection.RunKeepsValid(terminal, Projection.EMPTY, items[..m]);
    Projection.OpenKeepsValid(terminal, Projection.Run(terminal, Projection.EMPTY, items[..m]), items[m]);
  }

  /** The item makes a tool of its own in this state. */
  predicate MakesTool(st: Projection.Projection, item: Item) {
    item.EventItem?
    && (item.value.ToolCall? || (item.value.ToolResult? && !(item.value.id != "" && item.value.id in st.pending)))
  }

  lemma ToolIsMade(st: Projection.Projection, item: Item)
    requires Projection.Valid(st)
    ensures MakesTool(st, item)
            ==> |st.tools| < |Projection.Place(st, item).tools|
                && Projection.Place(st, item).tools[|st.tools|].key == item.key
    ensures !MakesTool(st, item) ==> |Projection.Place(st, item).tools| == |st.tools|
  {
  }

  /** A row that attaches an ask was made by that ask, to a call that was pending then and made before. */
  ghost predicate AttachedAt(terminal: seq<nat>, items: seq<Item>, m: nat, item: Item, t: nat) {
    && m < |items| && items[m] == item && item.EventItem? && Projection.AskedTool(item) != ""
    && var ready := ProjectionTheorems.Ready(terminal, items, m);
      Projection.AskedTool(item) in ready.pending && ready.pending[Projection.AskedTool(item)] == t
  }

  lemma NewAttached(st: Projection.Projection, item: Item, row: Projection.Row)
    requires row in Projection.Place(st, item).rows && row.ApprovalRow? && row !in st.rows
    ensures row.item == item && item.EventItem? && Projection.AskedTool(item) != ""
    ensures Projection.AskedTool(item) in st.pending && st.pending[Projection.AskedTool(item)] == row.approvalTool
  {
  }

  lemma {:induction false} AttachedRow(terminal: seq<nat>, items: seq<Item>, n: nat, row: Projection.Row)
    returns (m: nat)
    requires n <= |items| && row in Projection.Run(terminal, Projection.EMPTY, items[..n]).rows && row.ApprovalRow?
    ensures AttachedAt(terminal, items, m, row.item, row.approvalTool)
    decreases n
  {
    assert n > 0;
    m := n - 1;
    ProjectionTheorems.RunSnoc(terminal, items, m);
    if row in ProjectionTheorems.Ready(terminal, items, m).rows {
      m := AttachedRow(terminal, items, m, row);
    } else {
      NewAttached(ProjectionTheorems.Ready(terminal, items, m), items[m], row);
    }
  }

  lemma AskComesAfter(terminal: seq<nat>, items: seq<Item>, m: nat, item: Item, t: nat)
    requires KeysIncrease(items) && AttachedAt(terminal, items, m, item, t)
    ensures t < |Projection.Project(terminal, items).tools|
    ensures Projection.Project(terminal, items).tools[t].key < item.key
  {
    ReadyIsValid(terminal, items, m);
    KeepsFrom(terminal, items, m);
    StepKeepsKeys(terminal, Projection.Run(terminal, Projection.EMPTY, items[..m]), items[m]);
    assert items[..m][..m] == items[..m];
    RunToolKeys(terminal, items[..m], m, t);
    var x :| x in items[..m] && x.key == Projection.Run(terminal, Projection.EMPTY, items[..m]).tools[t].key;
  }

  // ---------------------------------------------------------------- barrier rows are barrier events

  lemma UngroupedAsk(
    rows: seq<Projection.Row>, tools: seq<Projection.Tool>, attached: set<nat>, row: Activity)
    returns (r: Projection.Row)
    requires InRange(rows, |tools|) && row in Ungrouped(rows, tools, attached) && row.Asked?
    ensures r in rows && r.ApprovalRow? && r.item == row.item
    ensures r.approvalTool < |tools| && tools[r.approvalTool] == row.approvalTool
  {
    r := UngroupedIsRow(rows, tools, attached, row);
  }

  lemma AskedHasRow(terminal: seq<nat>, items: seq<Item>, row: Activity) returns (r: Projection.Row)
    requires row in Flatten(Display(terminal, items)) && row.Asked?
    ensures var st := Projection.Project(terminal, items);
      && r in st.rows && r.ApprovalRow? && r.item == row.item
      && r.approvalTool < |st.tools| && st.tools[r.approvalTool] == row.approvalTool
  {
    var st := Projection.Project(terminal, items);
    DisplayFlattens(terminal, items);
    r := UngroupedAsk(st.rows, st.tools, st.attached, row);
  }

  /** The item, and the attaching state, behind an ask that is displayed with its tool. */
  lemma AskedIsAttached(terminal: seq<nat>, items: seq<Item>, row: Activity) returns (m: nat, t: nat)
    requires row in Display(terminal, items) && row.Asked?
    ensures AttachedAt(terminal, items, m, row.item, t)
    ensures t < |Projection.Project(terminal, items).tools|
            && Projection.Project(terminal, items).tools[t] == row.approvalTool
  {
    FlattenHas(Display(terminal, items), row, row);
    var r := AskedHasRow(terminal, items, row);
    t := r.approvalTool;
    m := RowIsAttached(terminal, items, r);
  }

  lemma RowIsAttached(terminal: seq<nat>, items: seq<Item>, row: Projection.Row) returns (m: nat)
    requires row in Projection.Project(terminal, items).rows && row.ApprovalRow?
    ensures AttachedAt(terminal, items, m, row.item, row.approvalTool)
  {
    assert items[..|items|] == items;
    m := AttachedRow(terminal, items, |items|, row);
  }

  /** The item behind a displayed tool: a call, or a result that no call waited for. */
  lemma ToolIsMadeBy(terminal: seq<nat>, items: seq<Item>, tool: Projection.Tool) returns (k: nat)
    requires Single(tool) in Flatten(Display(terminal, items))
    ensures k < |items| && items[k].key == tool.key
    ensures MakesTool(ProjectionTheorems.Ready(terminal, items, k), items[k])
  {
    var st := Projection.Project(terminal, items);
    DisplayFlattens(terminal, items);
    var t := UngroupedTool(st.rows, st.tools, st.attached, tool);
    k := ProjectionTheorems.Origin(terminal, items, t);
    ProjectionTheorems.RunSnoc(terminal, items, k);
    ReadyIsValid(terminal, items, k);
    ToolIsMade(ProjectionTheorems.Ready(terminal, items, k), items[k]);
    KeepsFrom(terminal, items, k);
  }

  lemma MakerIsBarrier(events: seq<Event>, receipts: Transcript.Receipts, k: nat) returns (b: Event)
    requires Transcript.EventsIncrease(events) && k < |TurnItems(events, receipts)|
    requires var terminal, items := Transcript.Terminals(events), TurnItems(events, receipts);
      MakesTool(ProjectionTheorems.Ready(terminal, items, k), items[k])
    ensures b in events && b.seqNo == TurnItems(events, receipts)[k].key && IsBarrierEvent(events, receipts, b)
  {
    b := EventOf(events, receipts, TurnItems(events, receipts)[k]);
    if b.event.ToolResult? {
      Transcript.TranscriptIncreases(events, receipts);
      PendingIsOpen(events, receipts, k, b, b.event.id);
    }
  }

  lemma AskedIsBarrier(events: seq<Event>, receipts: Transcript.Receipts, row: Activity) returns (b: Event)
    requires Transcript.EventsIncrease(events) && row in TurnDisplay(events, receipts) && row.Asked?
    ensures b in events && b.seqNo == row.item.key && IsBarrierEvent(events, receipts, b)
  {
    var terminal, items := Transcript.Terminals(events), TurnItems(events, receipts);
    var m, t := AskedIsAttached(terminal, items, row);
    b := EventOf(events, receipts, items[m]);
    Transcript.TranscriptIncreases(events, receipts);
    PendingIsOpen(events, receipts, m, b, b.event.toolUseId);
  }

  /** Every barrier that a turn shows is a message or a barrier among its events. */
  lemma BarrierRowIsEvent(events: seq<Event>, receipts: Transcript.Receipts, row: Activity) returns (b: Event)
    requires Transcript.EventsIncrease(events) && row in TurnDisplay(events, receipts) && IsBarrier(row)
    ensures b in events && b.seqNo as real == RowOrder.ActivityKey(row)
    ensures b.event.User? || IsBarrierEvent(events, receipts, b)
  {
    if row.Plain? {
      ShownIsItem(events, receipts, row);
      b := MessageRowIsEvent(events, receipts, row.item);
    } else if row.Asked? {
      b := AskedIsBarrier(events, receipts, row);
    } else {
      var terminal, items := Transcript.Terminals(events), TurnItems(events, receipts);
      DisplayFlattens(terminal, items);
      var tool := FirstTool(Display(terminal, items), row);
      var k := ToolIsMadeBy(terminal, items, tool);
      b := MakerIsBarrier(events, receipts, k);
    }
  }

  // ---------------------------------------------------------------- barrier events are barrier rows

  /** A row before a text row has all its members before the text row. */
  lemma {:induction false} MemberIsBefore(rows: seq<Activity>, r: Activity, member: Activity, text: Activity)
    requires RowOrder.KeysGrow(Flatten(rows)) && RowOrder.KeysGrow(rows)
    requires r in rows && member in Members(r) && text in rows && !text.Group?
    requires RowOrder.ActivityKey(r) < RowOrder.ActivityKey(text)
    ensures RowOrder.ActivityKey(member) < RowOrder.ActivityKey(text)
  {
    var front, last := rows[..|rows| - 1], rows[|rows| - 1];
    LastSplits(rows);
    RowOrder.KeysGrowSplit(Flatten(front), Members(last));
    if text == last {
      FlattenHas(front, r, member);
      assert Members(text)[0] == text;
    } else {
      RowOrder.KeysGrowSplit(front, [last]);
      assert [last][0] == last;
      MemberIsBefore(front, r, member, text);
    }
  }

  lemma {:induction false} FlattenMember(rows: seq<Activity>, member: Activity) returns (r: Activity)
    requires member in Flatten(rows)
    ensures r in rows && member in Members(r)
  {
    var n := |rows| - 1;
    assert rows == rows[..n] + [rows[n]];
    if member in Members(rows[n]) {
      r := rows[n];
    } else {
      r := FlattenMember(rows[..n], member);
    }
  }

  /** A barrier that does not open a turn. */
  predicate IsInnerBarrier(row: Activity) {
    IsBarrier(row) && (row.Plain? ==> row.item.handoff)
  }

  ghost predicate AfterInnerBarriers(rows: seq<Activity>, e: Event) {
    forall r | r in rows && IsInnerBarrier(r) :: RowOrder.ActivityKey(r) < e.seqNo as real
  }

  /** The row holds the text event, and the barriers displayed, except turn messages, come before the event. */
  ghost predicate TextAt(terminal: seq<nat>, items: seq<Item>, e: Event, text: Item) {
    && KeysIncrease(items) && HoldsText(items, e, text) && Plain(text) in Display(terminal, items)
    && AfterInnerBarriers(Display(terminal, items), e)
  }

  lemma MemberIsBeforeText(terminal: seq<nat>, items: seq<Item>, e: Event, text: Item, row: Activity, member: Activity)
    requires TextAt(terminal, items, e, text)
    requires row in Display(terminal, items) && IsTool(row) && member in Members(row)
    ensures RowOrder.ActivityKey(member) < e.seqNo as real
  {
    var rows := Display(terminal, items);
    var x := RowHasKey(terminal, items, row);
    RowOrder.DisplayKeysGrow(terminal, items);
    BarrierIsBefore(rows, items, e, text, row, x);
    var high := RowOrder.MemberKeysGrow(terminal, items);
    MemberIsBefore(rows, row, member, Plain(text));
  }

  lemma HoldsTool(row: Activity, tool: Projection.Tool)
    requires Single(tool) in Members(row)
    ensures IsTool(row)
  {
  }

  lemma ToolIsBefore(terminal: seq<nat>, items: seq<Item>, e: Event, text: Item, tool: Projection.Tool)
    requires TextAt(terminal, items, e, text) && Single(tool) in Flatten(Display(terminal, items))
    ensures tool.key < e.seqNo
  {
    var row := FlattenMember(Display(terminal, items), Single(tool));
    HoldsTool(row, tool);
    MemberIsBeforeText(terminal, items, e, text, row, Single(tool));
  }

  lemma AskedToolIsBefore(terminal: seq<nat>, items: seq<Item>, e: Event, text: Item, row: Activity)
    requires TextAt(terminal, items, e, text) && row in Display(terminal, items) && row.Asked?
    ensures row.approvalTool.key < e.seqNo
  {
    var m, t := AskedIsAttached(terminal, items, row);
    AskComesAfter(terminal, items, m, row.item, t);
  }

  lemma MadeToolStays(terminal: seq<nat>, items: seq<Item>, m: nat) returns (t: nat)
    requires m < |items| && MakesTool(ProjectionTheorems.Ready(terminal, items, m), items[m])
    ensures t < |Projection.Project(terminal, items).tools|
    ensures Projection.Project(terminal, items).tools[t].key == items[m].key
  {
    t := |ProjectionTheorems.Ready(terminal, items, m).tools|;
    ReadyIsValid(terminal, items, m);
    ToolIsMade(ProjectionTheorems.Ready(terminal, items, m), items[m]);
    KeepsFrom(terminal, items, m);
  }

  lemma MakerIsBefore(terminal: seq<nat>, items: seq<Item>, e: Event, text: Item, m: nat)
    requires TextAt(terminal, items, e, text) && m < |items|
    requires MakesTool(ProjectionTheorems.Ready(terminal, items, m), items[m])
    ensures items[m].key < e.seqNo
  {
    var t := MadeToolStays(terminal, items, m);
    var tool := Projection.Project(terminal, items).tools[t];
    RowOrder.NoToolIsLost(terminal, items, t);
    if Single(tool) in Flatten(Display(terminal, items)) {
      ToolIsBefore(terminal, items, e, text, tool);
    } else {
      var item :| Asked(item, tool) in Flatten(Display(terminal, items));
      FlattenFrom(Display(terminal, items), Asked(item, tool));
      AskedToolIsBefore(terminal, items, e, text, Asked(item, tool));
    }
  }

  lemma AskIsBefore(terminal: seq<nat>, items: seq<Item>, e: Event, text: Item, m: nat)
    requires TextAt(terminal, items, e, text) && m < |items|
    requires items[m].EventItem? && (items[m].value.Approval? || items[m].value.Question?)
    requires items[m].value.toolUseId in ProjectionTheorems.Ready(terminal, items, m).pending
    ensures items[m].key < e.seqNo
  {
    ReadyIsValid(terminal, items, m);
    var row := AskIsAttached(ProjectionTheorems.Ready(terminal, items, m), items[m]);
    KeepsFrom(terminal, items, m);
    var shown := RowIsShown(terminal, items, row);
  }

  lemma AskIsAttached(st: Projection.Projection, item: Item) returns (row: Projection.Row)
    requires Projection.Valid(st) && item.EventItem? && (item.value.Approval? || item.value.Question?)
    requires item.value.toolUseId in st.pending
    ensures row in Projection.Place(st, item).rows
    ensures row == Projection.ApprovalRow(item, st.pending[item.value.toolUseId])
  {
    row := Projection.ApprovalRow(item, st.pending[item.value.toolUseId]);
  }

  /** Every barrier among the events of a turn is shown as a barrier, and before what comes after it. */
  lemma BarrierEventIsBefore(events: seq<Event>, receipts: Transcript.Receipts, e: Event, text: Item, b: Event)
    requires Transcript.EventsIncrease(events)
    requires TextAt(Transcript.Terminals(events), TurnItems(events, receipts), e, text)
    requires b in events && IsBarrierEvent(events, receipts, b)
    ensures b.seqNo < e.seqNo
  {
    var terminal, items := Transcript.Terminals(events), TurnItems(events, receipts);
    if b.event.QueuedMessageSent? {
      var item := HandOffIsRow(events, receipts, b);
      var row := ItemIsShown(events, receipts, item);
    } else {
      var m := ItemOf(events, receipts, b);
      if IsAskEvent(b) {
        PendingIsOpen(events, receipts, m, b, b.event.toolUseId);
        AskIsBefore(terminal, items, e, text, m);
      } else {
        if b.event.ToolResult? {
          PendingIsOpen(events, receipts, m, b, b.event.id);
        }
        MakerIsBefore(terminal, items, e, text, m);
      }
    }
  }

  // ---------------------------------------------------------------- confirmed turns, by events alone

  /** The text event comes after every barrier among the events. */
  ghost predicate AfterBarrierEvents(events: seq<Event>, receipts: Transcript.Receipts, e: Event) {
    forall b | b in events && IsBarrierEvent(events, receipts, b) :: b.seqNo < e.seqNo
  }

  lemma MessageIsEarlier(events: seq<Event>, e: Event, b: Event)
    requires OneTurn(events) && Transcript.EventsIncrease(events)
    requires e in events && b in events && b.event.User? && !e.event.User?
    ensures b.seqNo < e.seqNo
  {
  }

  ghost predicate KeepsInnerBarriers(shown: seq<Activity>, rows: seq<Activity>) {
    forall r | r in shown && IsInnerBarrier(r) :: r in rows
  }

  lemma TurnKeepsInnerBarriers(events: seq<Event>, receipts: Transcript.Receipts)
    ensures KeepsInnerBarriers(TurnDisplay(events, receipts), TurnOf(events, receipts).items)
  {
    forall r | r in TurnDisplay(events, receipts) && IsInnerBarrier(r) ensures r in TurnOf(events, receipts).items {
      IsTurnRow(events, receipts, r);
    }
  }

  lemma InnerBarriersBefore(shown: seq<Activity>, rows: seq<Activity>, e: Event)
    requires KeepsInnerBarriers(shown, rows) && AfterBarriers(rows, e)
    ensures AfterInnerBarriers(shown, e)
  {
  }

  lemma TextIsAt(events: seq<Event>, receipts: Transcript.Receipts, e: Event) returns (text: Item)
    requires Transcript.EventsIncrease(events) && e in events && e.event.Text?
    requires AfterInnerBarriers(TurnDisplay(events, receipts), e)
    ensures TextAt(Transcript.Terminals(events), TurnItems(events, receipts), e, text)
  {
    Transcript.TranscriptIncreases(events, receipts);
    text := TextHasRow(events, receipts, e);
    var row := ItemIsShown(events, receipts, text);
  }

  lemma ShownBarrierIsBefore(events: seq<Event>, receipts: Transcript.Receipts, e: Event, r: Activity)
    requires OneTurn(events) && Transcript.EventsIncrease(events) && e in events && e.event.Text?
    requires AfterBarrierEvents(events, receipts, e) && r in TurnDisplay(events, receipts) && IsBarrier(r)
    ensures RowOrder.ActivityKey(r) < e.seqNo as real
  {
    var b := BarrierRowIsEvent(events, receipts, r);
    if b.event.User? {
      MessageIsEarlier(events, e, b);
    }
  }

  /** Coming after the barriers that the turn shows is coming after the barriers among its events. */
  lemma BarriersAreEvents(events: seq<Event>, receipts: Transcript.Receipts, e: Event)
    requires OneTurn(events) && Transcript.EventsIncrease(events) && e in events && e.event.Text?
    ensures AfterBarriers(TurnOf(events, receipts).items, e) <==> AfterBarrierEvents(events, receipts, e)
  {
    if AfterBarrierEvents(events, receipts, e) {
      forall r | r in TurnOf(events, receipts).items && IsBarrier(r)
        ensures RowOrder.ActivityKey(r) < e.seqNo as real
      {
        TurnRowIs(events, receipts, r);
        ShownBarrierIsBefore(events, receipts, e, r);
      }
    }
    if AfterBarriers(TurnOf(events, receipts).items, e) {
      TurnKeepsInnerBarriers(events, receipts);
      InnerBarriersBefore(TurnDisplay(events, receipts), TurnOf(events, receipts).items, e);
      var text := TextIsAt(events, receipts, e);
      forall b | b in events && IsBarrierEvent(events, receipts, b) ensures b.seqNo < e.seqNo {
        BarrierEventIsBefore(events, receipts, e, text, b);
      }
    }
  }

  /**
   * A turn is confirmed if and only if a message opens it, its last state is completed, every approval and
   * question in it is decided or was ended by a later state, and a text event comes after every hand-off, every
   * call, every result that no call waited for, and every approval and question about a call that was open then.
   */
  lemma ConfirmedByEventsIff(events: seq<Event>, receipts: Transcript.Receipts)
    requires OneTurn(events) && Transcript.EventsIncrease(events)
    ensures TurnOf(events, receipts).hasFinal
            <==> && events[0].event.User? && EndsCompleted(events)
                 && (forall e | e in events && IsAskEvent(e) :: !StillUndecided(events, e))
                 && exists e | e in events && e.event.Text? :: AfterBarrierEvents(events, receipts, e)
  {
    ConfirmedIff(events, receipts);
    forall e | e in events && e.event.Text?
      ensures AfterBarriers(TurnOf(events, receipts).items, e) <==> AfterBarrierEvents(events, receipts, e)
    {
      BarriersAreEvents(events, receipts, e);
    }
  }
}
