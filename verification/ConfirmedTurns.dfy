/**
 * When a turn counts as confirmed, read off the events of its group: who opens it, how it ends, what is still
 * undecided in it, and where its last text stands.
 */
module ConfirmedTurns {
  import opened Options
  import opened Protocol
  import Transcript
  import Projection
  import ProjectionTheorems
  import CallOutcome
  import opened Grouping
  import RowOrder
  import opened Turns
  import opened TurnTheorems

  // ---------------------------------------------------------------- rows of the pass are items

  /** Some item of the log makes this row. */
  ghost predicate FromItems(items: seq<Item>, row: Projection.Row) {
    match row
    case ItemRow(item) => item in items
    case ApprovalRow(item, _) => item in items
    case _ => true
  }

  lemma PlaceKeepsRows(st: Projection.Projection, item: Item)
    ensures st.rows <= Projection.Place(st, item).rows
  {
  }

  lemma PlacedRow(st: Projection.Projection, item: Item, row: Projection.Row)
    requires row in Projection.Place(st, item).rows && row !in st.rows
    ensures (row.ItemRow? || row.ApprovalRow?) ==> row.item == item
  {
  }

  lemma {:induction false} RunRowsAreItems(
    terminal: seq<nat>, st: Projection.Projection, items: seq<Item>, row: Projection.Row)
    requires row in Projection.Run(terminal, st, items).rows
    ensures row in st.rows || FromItems(items, row)
    decreases |items|
  {
    if items != [] {
      var ready := Projection.Open(terminal, st, items[0]);
      var next := Projection.Step(terminal, st, items[0]);
      RunRowsAreItems(terminal, next, items[1..], row);
      if row in next.rows && row !in st.rows {
        PlacedRow(ready, items[0], row);
      }
    }
  }

  /** The row that shows an item which is neither a call nor a result. */
  ghost predicate ShowsItem(row: Projection.Row, item: Item) {
    row == Projection.ItemRow(item) || (row.ApprovalRow? && row.item == item)
  }

  predicate IsToolItem(item: Item) {
    item.EventItem? && (item.value.ToolCall? || item.value.ToolResult?)
  }

  lemma {:induction false} ItemHasRow(terminal: seq<nat>, st: Projection.Projection, items: seq<Item>, item: Item)
    returns (row: Projection.Row)
    requires item in items && !IsToolItem(item)
    ensures row in Projection.Run(terminal, st, items).rows && ShowsItem(row, item)
    ensures !item.EventItem? ==> row.ItemRow?
    decreases |items|
  {
    var next := Projection.Step(terminal, st, items[0]);
    if item == items[0] {
      row := next.rows[|next.rows| - 1];
      RunKeepsRows(terminal, next, items[1..]);
    } else {
      row := ItemHasRow(terminal, next, items[1..], item);
    }
  }

  lemma {:induction false} RunKeepsRows(terminal: seq<nat>, st: Projection.Projection, items: seq<Item>)
    ensures st.rows <= Projection.Run(terminal, st, items).rows
    decreases |items|
  {
    if items != [] {
      PlaceKeepsRows(Projection.Open(terminal, st, items[0]), items[0]);
      RunKeepsRows(terminal, Projection.Step(terminal, st, items[0]), items[1..]);
    }
  }

  // ---------------------------------------------------------------- displayed rows are rows of the pass

  lemma {:induction false} UngroupedIsRow(
    rows: seq<Projection.Row>, tools: seq<Projection.Tool>, attached: set<nat>, shown: Activity)
    returns (row: Projection.Row)
    requires InRange(rows, |tools|) && shown in Ungrouped(rows, tools, attached)
    ensures row in rows && shown == Resolve(tools, row)
  {
    var n := |rows| - 1;
    if shown in Ungrouped(rows[..n], tools, attached) {
      row := UngroupedIsRow(rows[..n], tools, attached, shown);
    } else {
      row := rows[n];
    }
  }

  lemma {:induction false} FlattenHas(rows: seq<Activity>, row: Activity, member: Activity)
    requires row in rows && member in Members(row)
    ensures member in Flatten(rows)
  {
    var n := |rows| - 1;
    assert rows == rows[..n] + [rows[n]];
    if row in rows[..n] {
      FlattenHas(rows[..n], row, member);
    }
  }

  lemma {:induction false} FlattenFrom(rows: seq<Activity>, member: Activity)
    requires member in Flatten(rows) && !member.Single?
    ensures member in rows
  {
    var n := |rows| - 1;
    assert rows == rows[..n] + [rows[n]];
    if member in Flatten(rows[..n]) {
      FlattenFrom(rows[..n], member);
    }
  }

  predicate ShowsEvent(row: Activity) {
    row.Plain? || row.Asked?
  }

  lemma UngroupedItem(rows: seq<Projection.Row>, tools: seq<Projection.Tool>, attached: set<nat>, shown: Activity)
    returns (row: Projection.Row)
    requires InRange(rows, |tools|) && shown in Ungrouped(rows, tools, attached) && ShowsEvent(shown)
    ensures row in rows && (row.ItemRow? || row.ApprovalRow?) && row.item == shown.item
  {
    row := UngroupedIsRow(rows, tools, attached, shown);
  }

  lemma ProjectedIsItem(terminal: seq<nat>, items: seq<Item>, row: Projection.Row)
    requires row in Projection.Project(terminal, items).rows && (row.ItemRow? || row.ApprovalRow?)
    ensures row.item in items
  {
    RunRowsAreItems(terminal, Projection.EMPTY, items, row);
  }

  lemma RowIsItem(terminal: seq<nat>, items: seq<Item>, row: Activity)
    requires row in Display(terminal, items) && ShowsEvent(row)
    ensures row.item in items
  {
    var st := Projection.Project(terminal, items);
    DisplayFlattens(terminal, items);
    FlattenHas(Display(terminal, items), row, row);
    var r := UngroupedItem(st.rows, st.tools, st.attached, row);
    ProjectedIsItem(terminal, items, r);
  }

  /** A displayed row with an item shows an item of the transcript. */
  lemma ShownIsItem(events: seq<Event>, receipts: Transcript.Receipts, row: Activity)
    requires row in TurnDisplay(events, receipts) && ShowsEvent(row)
    ensures row.item in TurnItems(events, receipts)
  {
    RowIsItem(Transcript.Terminals(events), TurnItems(events, receipts), row);
  }

  lemma RowIsShown(terminal: seq<nat>, items: seq<Item>, row: Projection.Row) returns (shown: Activity)
    requires row in Projection.Project(terminal, items).rows && (row.ItemRow? || row.ApprovalRow?)
    ensures shown in Display(terminal, items) && ShowsEvent(shown) && shown.item == row.item
    ensures row.ItemRow? ==> shown.Plain?
    ensures row.ApprovalRow? ==> shown.Asked?
  {
    var st := Projection.Project(terminal, items);
    DisplayFlattens(terminal, items);
    RowOrder.RowIsUngrouped(st.rows, st.tools, st.attached, row);
    shown := Resolve(st.tools, row);
    FlattenFrom(Display(terminal, items), shown);
  }

  /** An item that is neither a call nor a result is displayed as a row of its own. */
  lemma ItemIsShown(events: seq<Event>, receipts: Transcript.Receipts, item: Item) returns (row: Activity)
    requires item in TurnItems(events, receipts) && !IsToolItem(item)
    ensures row in TurnDisplay(events, receipts) && ShowsEvent(row) && row.item == item
    ensures !item.EventItem? ==> row.Plain?
  {
    var terminal, items := Transcript.Terminals(events), TurnItems(events, receipts);
    var r := ItemHasRow(terminal, Projection.EMPTY, items, item);
    row := RowIsShown(terminal, items, r);
  }

  // ---------------------------------------------------------------- who opens the turn

  /** The events of one turn: a message of the user stands at most at their front. */
  ghost predicate OneTurn(events: seq<Event>) {
    events != [] && forall j | 1 <= j < |events| :: !events[j].event.User?
  }

  ghost predicate StartsWith<T>(rows: seq<T>, row: T) {
    rows != [] && rows[0] == row
  }

  lemma AddStarts(index: Transcript.Index, draft: Transcript.Draft, e: Event, first: Item)
    requires StartsWith(draft.items, first) && first.UserItem?
    ensures StartsWith(Transcript.Add(index, draft, e).items, first)
  {
  }

  lemma {:induction false} BuildStarts(index: Transcript.Index, events: seq<Event>, n: nat)
    requires 1 <= n <= |events| && events[0].event.User?
    ensures StartsWith(Transcript.Build(index, events[..n]).items, Transcript.UserRow(index, events[0]))
    decreases n
  {
    if n == 1 {
      assert events[..1] == [] + [events[0]];
      Transcript.BuildGrows(index, [], events[0]);
    } else {
      var front := events[..n - 1];
      BuildStarts(index, events, n - 1);
      AddStarts(index, Transcript.Build(index, front), events[n - 1], Transcript.UserRow(index, events[0]));
      Transcript.BuildGrows(index, front, events[n - 1]);
      assert events[..n] == front + [events[n - 1]];
    }
  }

  lemma {:induction false} KeepRowsStarts(items: seq<Item>)
    requires items != [] && items[0].UserItem?
    ensures Transcript.KeepRows(items) != [] && Transcript.KeepRows(items)[0] == items[0]
  {
    if |items| > 1 {
      KeepRowsStarts(items[..|items| - 1]);
    } else {
      assert items[..0] == [];
    }
  }

  lemma {:induction false} UngroupedStarts(rows: seq<Projection.Row>, tools: seq<Projection.Tool>, attached: set<nat>)
    requires InRange(rows, |tools|) && rows != [] && rows[0].ItemRow?
    ensures Ungrouped(rows, tools, attached) != []
    ensures Ungrouped(rows, tools, attached)[0] == Plain(rows[0].item)
  {
    if |rows| > 1 {
      UngroupedStarts(rows[..|rows| - 1], tools, attached);
    } else {
      assert Ungrouped(rows[..0], tools, attached) == [];
    }
  }

  lemma PushStarts(grouped: seq<Activity>, row: Activity, first: Activity)
    requires StartsWith(grouped, first) && first.Plain?
    ensures StartsWith(Push(grouped, row), first)
  {
  }

  lemma {:induction false} GroupRowsStarts(rows: seq<Activity>, n: nat)
    requires 1 <= n <= |rows| && rows[0].Plain?
    ensures StartsWith(GroupRows(rows[..n]), rows[0])
    decreases n
  {
    if n == 1 {
      assert rows[..1] == [] + [rows[0]];
      GroupRowsSnoc([], rows[0]);
      assert GroupRows([]) == [];
    } else {
      GroupRowsStarts(rows, n - 1);
      PushStarts(GroupRows(rows[..n - 1]), rows[n - 1], rows[0]);
      GroupRowsSnoc(rows[..n - 1], rows[n - 1]);
      assert rows[..n] == rows[..n - 1] + [rows[n - 1]];
    }
  }

  lemma {:induction false} WithoutStarts(rows: seq<Activity>, drop: Activity -> bool)
    requires rows != [] && !drop(rows[0])
    ensures Without(rows, drop) != [] && Without(rows, drop)[0] == rows[0]
  {
    if |rows| > 1 {
      WithoutStarts(rows[..|rows| - 1], drop);
    } else {
      assert Without(rows[..0], drop) == [];
    }
  }

  /** An item that is no event and stands first is displayed first. */
  lemma DisplayStarts(terminal: seq<nat>, items: seq<Item>)
    requires items != [] && !items[0].EventItem?
    ensures StartsWith(Display(terminal, items), Plain(items[0]))
  {
    var st := Projection.Project(terminal, items);
    RunKeepsRange(terminal, Projection.EMPTY, items);
    RunKeepsRows(terminal, Projection.Step(terminal, Projection.EMPTY, items[0]), items[1..]);
    assert st.rows[0] == Projection.ItemRow(items[0]);
    UngroupedStarts(st.rows, st.tools, st.attached);
    var rows := Ungrouped(st.rows, st.tools, st.attached);
    GroupRowsStarts(rows, |rows|);
    assert rows[..|rows|] == rows;
  }

  lemma TranscriptStarts(events: seq<Event>, receipts: Transcript.Receipts)
    requires events != [] && events[0].event.User?
    ensures StartsWith(TurnItems(events, receipts), Transcript.UserRow(Transcript.IndexOf(events, receipts), events[0]))
  {
    var index := Transcript.IndexOf(events, receipts);
    BuildStarts(index, events, |events|);
    assert events[..|events|] == events;
    KeepRowsStarts(Transcript.Build(index, events).items);
  }

  /** The turn has a message of its own. */
  ghost predicate HasMessage(events: seq<Event>, receipts: Transcript.Receipts) {
    TurnOf(events, receipts).user.Some?
  }

  lemma MessageIsShown(events: seq<Event>, receipts: Transcript.Receipts) returns (item: Item)
    requires HasMessage(events, receipts)
    ensures Plain(item) in TurnDisplay(events, receipts) && Projection.EndsTurn(item)
  {
    var rows := Without(TurnDisplay(events, receipts), IsHiddenNotice);
    item := rows[0].item;
    assert rows[0] in rows;
  }

  lemma MessageStarts(events: seq<Event>, receipts: Transcript.Receipts)
    requires events != [] && events[0].event.User?
    ensures HasMessage(events, receipts)
  {
    TranscriptStarts(events, receipts);
    DisplayStarts(Transcript.Terminals(events), TurnItems(events, receipts));
    WithoutStarts(TurnDisplay(events, receipts), IsHiddenNotice);
  }

  lemma MessageIsEvent(events: seq<Event>, receipts: Transcript.Receipts, item: Item) returns (e: Event)
    requires Plain(item) in TurnDisplay(events, receipts) && Projection.EndsTurn(item)
    ensures e in events && e.event.User?
  {
    ShownIsItem(events, receipts, Plain(item));
    RowsAreEvents(events, receipts, item);
    e :| e in events && Makes(Transcript.IndexOf(events, receipts), e, item);
    MakesItem(Transcript.IndexOf(events, receipts), e, item);
  }

  lemma MessageIsFirst(events: seq<Event>, e: Event)
    requires OneTurn(events) && e in events && e.event.User?
    ensures events[0].event.User?
  {
  }

  /** A turn has a message of its own exactly if its first event is one. */
  lemma OpenedByMessageIff(events: seq<Event>, receipts: Transcript.Receipts)
    requires OneTurn(events)
    ensures HasMessage(events, receipts) <==> events[0].event.User?
  {
    if events[0].event.User? {
      MessageStarts(events, receipts);
    } else if HasMessage(events, receipts) {
      var item := MessageIsShown(events, receipts);
      var e := MessageIsEvent(events, receipts, item);
      MessageIsFirst(events, e);
    }
  }

  // ---------------------------------------------------------------- what is undecided in it

  predicate IsAskEvent(e: Event) {
    e.event.Approval? || e.event.Question?
  }

  /** A row of the turn is a displayed row, and only its message, hidden notices and stop marks are missing. */
  lemma TurnRowIs(events: seq<Event>, receipts: Transcript.Receipts, row: Activity)
    ensures var turn := TurnOf(events, receipts);
      row in turn.items ==> row in TurnDisplay(events, receipts) && !IsHiddenNotice(row)
    ensures var turn := TurnOf(events, receipts);
      row in TurnDisplay(events, receipts) && !IsHiddenNotice(row) && !IsStoppedState(row)
      && !(row.Plain? && turn.user == Some(row.item))
      ==> row in turn.items
  {
    var rows := Without(TurnDisplay(events, receipts), IsHiddenNotice);
    var body := ItemsOfTurn(events, receipts);
    if row in body {
      assert row in rows;
    }
    if row in rows && row !in body {
      assert row == rows[0];
    }
  }

  /** An item stays unresolved exactly as long as it waits. */
  lemma UnresolvedWaits(index: Transcript.Index, e: Event, row: Item)
    requires IsAskEvent(e) && Transcript.RowOf(index, e) == Some(row)
    ensures row.EventItem? && row.value == e.event
    ensures !row.resolved <==> CallOutcome.Waits(row)
  {
  }

  lemma UnresolvedIsUndecided(events: seq<Event>, receipts: Transcript.Receipts, row: Activity) returns (e: Event)
    requires row in TurnOf(events, receipts).items && IsUnresolved(row)
    ensures e in events && IsAskEvent(e) && StillUndecided(events, e)
  {
    var index := Transcript.IndexOf(events, receipts);
    TurnRowIs(events, receipts, row);
    ShownIsItem(events, receipts, row);
    e := AskEvent(events, receipts, row.item);
    UnresolvedWaits(index, e, row.item);
    AskWaitsIff(events, receipts, e);
  }

  lemma UndecidedIsUnresolved(events: seq<Event>, receipts: Transcript.Receipts, e: Event) returns (row: Activity)
    requires e in events && IsAskEvent(e) && StillUndecided(events, e)
    ensures row in TurnOf(events, receipts).items && IsUnresolved(row)
  {
    var index := Transcript.IndexOf(events, receipts);
    AskWaitsIff(events, receipts, e);
    var item := Transcript.RowOf(index, e).value;
    UnresolvedWaits(index, e, item);
    assert Makes(index, e, item);
    RowsAreEvents(events, receipts, item);
    row := ItemIsShown(events, receipts, item);
    IsTurnRow(events, receipts, row);
  }

  /** A displayed row other than a turn message, a hidden notice or a stop mark is a row of its turn. */
  lemma IsTurnRow(events: seq<Event>, receipts: Transcript.Receipts, row: Activity)
    requires row in TurnDisplay(events, receipts)
    requires !IsHiddenNotice(row) && !IsStoppedState(row) && (row.Plain? ==> !Projection.EndsTurn(row.item))
    ensures row in TurnOf(events, receipts).items
  {
    TurnRowIs(events, receipts, row);
    if TurnOf(events, receipts).user.Some? {
      UserEnds(events, receipts);
    }
  }

  lemma UserEnds(events: seq<Event>, receipts: Transcript.Receipts)
    requires TurnOf(events, receipts).user.Some?
    ensures Projection.EndsTurn(TurnOf(events, receipts).user.value)
  {
  }

  /** Something in the turn is unresolved exactly if one of its approvals or questions is undecided. */
  lemma UnresolvedIff(events: seq<Event>, receipts: Transcript.Receipts)
    ensures (exists row | row in TurnOf(events, receipts).items :: IsUnresolved(row))
            <==> exists e | e in events && IsAskEvent(e) :: StillUndecided(events, e)
  {
    if row :| row in TurnOf(events, receipts).items && IsUnresolved(row) {
      var e := UnresolvedIsUndecided(events, receipts, row);
    }
    if e :| e in events && IsAskEvent(e) && StillUndecided(events, e) {
      var row := UndecidedIsUnresolved(events, receipts, e);
    }
  }

  // ---------------------------------------------------------------- where its last text stands

  /** The row that shows the text event: it starts at or before the event, and no other row starts in between. */
  ghost predicate HoldsText(items: seq<Item>, e: Event, row: Item) {
    && row in items && row.AssistantItem? && row.key <= e.seqNo
    && forall x | x in items :: x.key <= row.key || x.key > e.seqNo
  }

  lemma AddHoldsText(index: Transcript.Index, draft: Transcript.Draft, next: Event, e: Event, row: Item)
    returns (held: Item)
    requires HoldsText(draft.items, e, row) && e.seqNo < next.seqNo
    ensures HoldsText(Transcript.Add(index, draft, next).items, e, held)
  {
    var n := |draft.items| - 1;
    held :=
      if next.event.Text? && row == draft.items[n] then AssistantItem(row.key, row.text + next.event.text) else row;
    var items := Transcript.Add(index, draft, next).items;
    if next.event.Text? && draft.items[n].AssistantItem? {
      assert items[n] == AssistantItem(draft.items[n].key, draft.items[n].text + next.event.text);
      assert forall x | x in items :: x == items[n] || x in draft.items;
    }
  }

  lemma NewTextIsHeld(index: Transcript.Index, draft: Transcript.Draft, e: Event, last: int) returns (row: Item)
    requires Transcript.IncreaseUpTo(draft.items, last) && last < e.seqNo && e.event.Text?
    ensures HoldsText(Transcript.Add(index, draft, e).items, e, row)
  {
    var items := Transcript.Add(index, draft, e).items;
    row := items[|items| - 1];
    forall x | x in items ensures x.key <= row.key {
      var i :| 0 <= i < |items| && items[i] == x;
    }
  }

  lemma {:induction false} TextIsHeld(index: Transcript.Index, events: seq<Event>, n: nat, e: Event) returns (row: Item)
    requires Transcript.EventsIncrease(events) && n <= |events| && e in events[..n] && e.event.Text?
    ensures HoldsText(Transcript.Build(index, events[..n]).items, e, row)
    decreases n
  {
    var front, last := events[..n - 1], events[n - 1];
    assert events[..n] == front + [last];
    Transcript.BuildGrows(index, front, last);
    if e in front {
      var before := TextIsHeld(index, events, n - 1, e);
      row := AddHoldsText(index, Transcript.Build(index, front), last, e, before);
    } else {
      Transcript.BuildIncreases(index, events, n - 1);
      var before := if n == 1 then e.seqNo - 1 else events[n - 2].seqNo;
      row := NewTextIsHeld(index, Transcript.Build(index, front), e, before);
    }
  }

  lemma {:induction false} KeepRowsIs(items: seq<Item>, row: Item)
    ensures row in Transcript.KeepRows(items) <==> row in items && Transcript.Kept(row)
  {
    if items != [] {
      var front, last := items[..|items| - 1], items[|items| - 1];
      assert items == front + [last];
      KeepRowsIs(front, row);
    }
  }

  /** Every text event is held by an assistant row of the transcript. */
  lemma TextHasRow(events: seq<Event>, receipts: Transcript.Receipts, e: Event) returns (row: Item)
    requires Transcript.EventsIncrease(events) && e in events && e.event.Text?
    ensures HoldsText(TurnItems(events, receipts), e, row)
  {
    var index := Transcript.IndexOf(events, receipts);
    assert events[..|events|] == events;
    row := TextIsHeld(index, events, |events|, e);
    var built := Transcript.Build(index, events).items;
    forall x ensures x in TurnItems(events, receipts) <==> x in built && Transcript.Kept(x) {
      KeepRowsIs(built, x);
    }
  }

  lemma AddedAssistant(index: Transcript.Index, draft: Transcript.Draft, e: Event, row: Item)
    requires row in Transcript.Add(index, draft, e).items && row.AssistantItem?
    ensures (exists x :: x in draft.items && x.AssistantItem? && x.key == row.key)
            || (e.event.Text? && e.seqNo == row.key)
  {
  }

  lemma {:induction false} AssistantIsText(index: Transcript.Index, events: seq<Event>, row: Item) returns (e: Event)
    requires row in Transcript.Build(index, events).items && row.AssistantItem?
    ensures e in events && e.event.Text? && e.seqNo == row.key
    decreases |events|
  {
    var front, last := events[..|events| - 1], events[|events| - 1];
    var draft := Transcript.Build(index, front);
    AddedAssistant(index, draft, last, row);
    if x :| x in draft.items && x.AssistantItem? && x.key == row.key {
      e := AssistantIsText(index, front, x);
    } else {
      e := last;
    }
  }

  /** An assistant row of the transcript starts with a text event. */
  lemma RowIsText(events: seq<Event>, receipts: Transcript.Receipts, row: Item) returns (e: Event)
    requires row in TurnItems(events, receipts) && row.AssistantItem?
    ensures e in events && e.event.Text? && e.seqNo == row.key
  {
    var index := Transcript.IndexOf(events, receipts);
    KeepRowsIs(Transcript.Build(index, events).items, row);
    e := AssistantIsText(index, events, row);
  }

  // ---------------------------------------------------------------- rows carry the keys of items

  ghost predicate HasKey(items: seq<Item>, key: nat) {
    exists x | x in items :: x.key == key
  }

  lemma StepToolKeys(terminal: seq<nat>, st: Projection.Projection, item: Item, t: nat)
    requires t < |Projection.Step(terminal, st, item).tools|
    ensures var key := Projection.Step(terminal, st, item).tools[t].key;
      key == item.key || (t < |st.tools| && key == st.tools[t].key)
  {
  }

  lemma {:induction false} RunToolKeys(terminal: seq<nat>, items: seq<Item>, n: nat, t: nat)
    requires n <= |items| && t < |Projection.Run(terminal, Projection.EMPTY, items[..n]).tools|
    ensures HasKey(items, Projection.Run(terminal, Projection.EMPTY, items[..n]).tools[t].key)
    decreases n
  {
    if n > 0 {
      var before := Projection.Run(terminal, Projection.EMPTY, items[..n - 1]);
      ProjectionTheorems.RunSnoc(terminal, items, n - 1);
      StepToolKeys(terminal, before, items[n - 1], t);
      assert items[n - 1] in items;
      if t < |before.tools| {
        RunToolKeys(terminal, items, n - 1, t);
      }
    }
  }

  lemma ToolKeyIsItem(terminal: seq<nat>, items: seq<Item>, t: nat)
    requires t < |Projection.Project(terminal, items).tools|
    ensures HasKey(items, Projection.Project(terminal, items).tools[t].key)
  {
    assert items[..|items|] == items;
    RunToolKeys(terminal, items, |items|, t);
  }

  lemma UngroupedTool(
    rows: seq<Projection.Row>, tools: seq<Projection.Tool>, attached: set<nat>, tool: Projection.Tool) returns (t: nat)
    requires InRange(rows, |tools|) && Single(tool) in Ungrouped(rows, tools, attached)
    ensures t < |tools| && tools[t] == tool
  {
    var r := UngroupedIsRow(rows, tools, attached, Single(tool));
    t := r.tool;
  }

  lemma ShownToolHasKey(terminal: seq<nat>, items: seq<Item>, tool: Projection.Tool)
    requires Single(tool) in Flatten(Display(terminal, items))
    ensures HasKey(items, tool.key)
  {
    var st := Projection.Project(terminal, items);
    DisplayFlattens(terminal, items);
    var t := UngroupedTool(st.rows, st.tools, st.attached, tool);
    ToolKeyIsItem(terminal, items, t);
  }

  /** The tool that gives a tool row its key. */
  lemma FirstTool(rows: seq<Activity>, row: Activity) returns (tool: Projection.Tool)
    requires WellGrouped(rows) && row in rows && IsTool(row)
    ensures Single(tool) in Flatten(rows) && RowOrder.ActivityKey(row) == tool.key as real
  {
    var k :| 0 <= k < |rows| && rows[k] == row;
    assert ProperGroup(rows[k]);
    tool := if row.Single? then row.tool else row.tools[0];
    assert Members(row)[0] == Single(tool);
    FlattenHas(rows, row, Single(tool));
  }

  /** Every displayed row but a row of images carries the key of an item. */
  lemma RowHasKey(terminal: seq<nat>, items: seq<Item>, row: Activity) returns (x: Item)
    requires row in Display(terminal, items) && !row.Images?
    ensures x in items && RowOrder.ActivityKey(row) == x.key as real
  {
    if ShowsEvent(row) {
      RowIsItem(terminal, items, row);
      x := row.item;
    } else {
      DisplayFlattens(terminal, items);
      var tool := FirstTool(Display(terminal, items), row);
      ShownToolHasKey(terminal, items, tool);
      x :| x in items && x.key == tool.key;
    }
  }

  // ---------------------------------------------------------------- the final reply

  /** The text event comes after every message, tool and attached approval that the turn shows. */
  ghost predicate AfterBarriers(rows: seq<Activity>, e: Event) {
    forall r | r in rows && IsBarrier(r) :: RowOrder.ActivityKey(r) < e.seqNo as real
  }

  lemma {:induction false} AssistantsHave(rows: seq<Activity>, row: Activity)
    ensures row in Assistants(rows) <==> row in rows && IsAssistant(row)
  {
    if rows != [] {
      var front, last := rows[..|rows| - 1], rows[|rows| - 1];
      assert rows == front + [last];
      AssistantsHave(front, row);
    }
  }

  ghost predicate BelowBarriers(rows: seq<Activity>, row: Activity) {
    forall r | r in rows && IsBarrier(r) :: RowOrder.ActivityKey(r) < RowOrder.ActivityKey(row)
  }

  lemma PlaceIsBelow(rows: seq<Activity>, p: nat)
    requires RowOrder.KeysGrow(rows) && AfterBarrier(rows) <= p < |rows|
    ensures BelowBarriers(rows, rows[p])
  {
    forall r | r in rows && IsBarrier(r) ensures RowOrder.ActivityKey(r) < RowOrder.ActivityKey(rows[p]) {
      var q :| 0 <= q < |rows| && rows[q] == r;
    }
  }

  lemma ReplyIsBelow(rows: seq<Activity>, row: Activity)
    requires RowOrder.KeysGrow(rows) && row in FinalReply(rows)
    ensures row in rows && IsAssistant(row) && BelowBarriers(rows, row)
  {
    var b := AfterBarrier(rows);
    var tail := rows[b..];
    AssistantsHave(tail, row);
    var p :| 0 <= p < |tail| && tail[p] == row;
    PlaceIsBelow(rows, b + p);
  }

  lemma BelowIsReply(rows: seq<Activity>, row: Activity)
    requires RowOrder.KeysGrow(rows) && row in rows && IsAssistant(row) && BelowBarriers(rows, row)
    ensures row in FinalReply(rows)
  {
    var b := AfterBarrier(rows);
    var p :| 0 <= p < |rows| && rows[p] == row;
    if b > 0 {
      assert rows[b - 1] in rows && IsBarrier(rows[b - 1]);
    }
    assert b <= p && rows[b..][p - b] == row;
    AssistantsHave(rows[b..], row);
  }

  lemma ReplyOfTurn(events: seq<Event>, receipts: Transcript.Receipts)
    ensures TurnOf(events, receipts).reply == FinalReply(TurnOf(events, receipts).items)
  {
  }

  lemma FirstReply(rows: seq<Activity>) returns (row: Activity)
    requires RowOrder.KeysGrow(rows) && FinalReply(rows) != []
    ensures row in rows && IsAssistant(row) && BelowBarriers(rows, row)
  {
    row := FinalReply(rows)[0];
    assert row in FinalReply(rows);
    ReplyIsBelow(rows, row);
  }

  lemma AfterFirstReply(rows: seq<Activity>, row: Activity, e: Event)
    requires row.Plain? && BelowBarriers(rows, row) && e.seqNo == row.item.key
    ensures AfterBarriers(rows, e)
  {
  }

  lemma ReplyHasText(events: seq<Event>, receipts: Transcript.Receipts) returns (e: Event)
    requires Transcript.EventsIncrease(events) && TurnOf(events, receipts).reply != []
    ensures e in events && e.event.Text? && AfterBarriers(TurnOf(events, receipts).items, e)
  {
    TurnRowsAreDistinct(events, receipts);
    ReplyOfTurn(events, receipts);
    var row := FirstReply(TurnOf(events, receipts).items);
    TurnRowIs(events, receipts, row);
    ShownIsItem(events, receipts, row);
    e := RowIsText(events, receipts, row.item);
    AfterFirstReply(TurnOf(events, receipts).items, row, e);
  }

  lemma BarrierHasKey(events: seq<Event>, receipts: Transcript.Receipts, r: Activity) returns (x: Item)
    requires r in TurnOf(events, receipts).items && IsBarrier(r)
    ensures x in TurnItems(events, receipts) && RowOrder.ActivityKey(r) == x.key as real
  {
    TurnRowIs(events, receipts, r);
    x := RowHasKey(Transcript.Terminals(events), TurnItems(events, receipts), r);
  }

  lemma SameKeySameRow(rows: seq<Activity>, a: Activity, b: Activity)
    requires RowOrder.KeysGrow(rows) && a in rows && b in rows
    requires RowOrder.ActivityKey(a) == RowOrder.ActivityKey(b)
    ensures a == b
  {
  }

  /** A barrier before the text event is before the row that holds the text. */
  lemma BarrierIsBefore(rows: seq<Activity>, items: seq<Item>, e: Event, item: Item, r: Activity, x: Item)
    requires RowOrder.KeysGrow(rows) && HoldsText(items, e, item) && Plain(item) in rows
    requires r in rows && IsBarrier(r) && RowOrder.ActivityKey(r) < e.seqNo as real
    requires x in items && RowOrder.ActivityKey(r) == x.key as real
    ensures RowOrder.ActivityKey(r) < RowOrder.ActivityKey(Plain(item))
  {
    assert x.key <= item.key;
    if x.key == item.key {
      SameKeySameRow(rows, r, Plain(item));
    }
  }

  lemma TextIsReply(events: seq<Event>, receipts: Transcript.Receipts, e: Event)
    requires Transcript.EventsIncrease(events) && e in events && e.event.Text?
    requires AfterBarriers(TurnOf(events, receipts).items, e)
    ensures TurnOf(events, receipts).reply != []
  {
    var rows := TurnOf(events, receipts).items;
    TurnRowsAreDistinct(events, receipts);
    var item := TextHasRow(events, receipts, e);
    var row := ItemIsShown(events, receipts, item);
    IsTurnRow(events, receipts, row);
    forall r | r in rows && IsBarrier(r) ensures RowOrder.ActivityKey(r) < RowOrder.ActivityKey(row) {
      var x := BarrierHasKey(events, receipts, r);
      BarrierIsBefore(rows, TurnItems(events, receipts), e, item, r, x);
    }
    BelowIsReply(rows, row);
    ReplyOfTurn(events, receipts);
  }

  /** A turn has a final reply exactly if a text event comes after every barrier that it shows. */
  lemma RepliesIff(events: seq<Event>, receipts: Transcript.Receipts)
    requires Transcript.EventsIncrease(events)
    ensures TurnOf(events, receipts).reply != []
            <==> exists e | e in events && e.event.Text? :: AfterBarriers(TurnOf(events, receipts).items, e)
  {
    if TurnOf(events, receipts).reply != [] {
      var e := ReplyHasText(events, receipts);
    }
    if e :| e in events && e.event.Text? && AfterBarriers(TurnOf(events, receipts).items, e) {
      TextIsReply(events, receipts, e);
    }
  }

  // ---------------------------------------------------------------- confirmed turns

  /** The last state of the turn is completed. */
  ghost predicate EndsCompleted(events: seq<Event>) {
    exists k: nat :: k < |events| && IsLastState(events, k) && events[k].event.status == Finished
  }

  ghost predicate IsLastState(events: seq<Event>, k: nat)
    requires k < |events|
  {
    events[k].event.State? && forall j | k < j < |events| :: !events[j].event.State?
  }

  lemma {:induction false} LastStateIs(events: seq<Event>, k: nat)
    requires k < |events| && IsLastState(events, k)
    ensures LastState(events) == Some(events[k].event.status)
    decreases |events|
  {
    var n := |events| - 1;
    if k < n {
      assert !events[n].event.State?;
      LastStateIs(events[..n], k);
    }
  }

  lemma {:induction false} LastStateAt(events: seq<Event>) returns (k: nat)
    requires LastState(events).Some?
    ensures k < |events| && IsLastState(events, k)
    decreases |events|
  {
    var n := |events| - 1;
    if events[n].event.State? {
      k := n;
    } else {
      k := LastStateAt(events[..n]);
    }
  }

  lemma EndsCompletedIff(events: seq<Event>)
    ensures LastState(events) == Some(Finished) <==> EndsCompleted(events)
  {
    if k: nat :| k < |events| && IsLastState(events, k) && events[k].event.status == Finished {
      LastStateIs(events, k);
    }
    if LastState(events) == Some(Finished) {
      var k := LastStateAt(events);
      LastStateIs(events, k);
    }
  }

  /** The conditions the program checks, over the rows of the turn. */
  lemma HasFinalIs(events: seq<Event>, receipts: Transcript.Receipts)
    ensures var turn := TurnOf(events, receipts);
      turn.hasFinal
      <==> && HasMessage(events, receipts) && LastState(events) == Some(Finished) && turn.reply != []
           && !(exists row | row in turn.items :: IsUnresolved(row))
    ensures TurnOf(events, receipts).final.Some? <==> TurnOf(events, receipts).hasFinal
  {
  }

  /**
   * A turn is confirmed if and only if a message opens it, its last state is completed, every approval and
   * question in it is decided or was ended by a later state, and a text event comes after everything else
   * that the turn shows as a message, a tool or an attached approval.
   */
  lemma ConfirmedIff(events: seq<Event>, receipts: Transcript.Receipts)
    requires OneTurn(events) && Transcript.EventsIncrease(events)
    ensures TurnOf(events, receipts).hasFinal
            <==> && events[0].event.User? && EndsCompleted(events)
                 && (forall e | e in events && IsAskEvent(e) :: !StillUndecided(events, e))
                 && exists e | e in events && e.event.Text? :: AfterBarriers(TurnOf(events, receipts).items, e)
  {
    HasFinalIs(events, receipts);
    OpenedByMessageIff(events, receipts);
    EndsCompletedIff(events);
    UnresolvedIff(events, receipts);
    RepliesIff(events, receipts);
  }

  // ---------------------------------------------------------------- the turns of a log

  /** Where part `i` starts. */
  function Offset<T>(parts: seq<seq<T>>, i: nat): nat
    requires i <= |parts|
  {
    |Concat(parts[..i])|
  }

  lemma {:induction false} PartStands<T>(parts: seq<seq<T>>, i: nat)
    requires i < |parts|
    ensures Offset(parts, i) + |parts[i]| <= |Concat(parts)|
    ensures Concat(parts)[Offset(parts, i)..Offset(parts, i) + |parts[i]|] == parts[i]
    decreases |parts|
  {
    var n := |parts| - 1;
    assert parts == parts[..n] + [parts[n]];
    ConcatSnoc(parts[..n], parts[n]);
    if i < n {
      PartStands(parts[..n], i);
      assert parts[..n][..i] == parts[..i];
    }
  }

  lemma {:induction false} OffsetsGrow<T>(parts: seq<seq<T>>, i: nat, j: nat)
    requires i < j <= |parts| && parts[i] != []
    ensures Offset(parts, i) < Offset(parts, j)
    decreases j
  {
    assert parts[..j] == parts[..j - 1] + [parts[j - 1]];
    ConcatSnoc(parts[..j - 1], parts[j - 1]);
    if i < j - 1 {
      OffsetsGrow(parts, i, j - 1);
    }
  }

  /** Every group of a log in order is one turn, in order. */
  lemma GroupIsTurn(log: seq<Event>, i: nat)
    requires Transcript.EventsIncrease(log) && i < |TurnGroups(log)|
    ensures OneTurn(TurnGroups(log)[i]) && Transcript.EventsIncrease(TurnGroups(log)[i])
  {
    TurnGroupsCoverTheLog(log);
    PartStands(TurnGroups(log), i);
  }

  /** No two turns of a log in order have the same key. */
  lemma TurnKeysAreDistinct(log: seq<Event>, i: nat, j: nat)
    requires Transcript.EventsIncrease(log) && i < j < |TurnGroups(log)|
    ensures var groups, receipts := TurnGroups(log), Transcript.QueuedInputReceipts(log);
      TurnOf(groups[i], receipts).key.Some? && TurnOf(groups[i], receipts).key != TurnOf(groups[j], receipts).key
  {
    var groups := TurnGroups(log);
    TurnGroupsCoverTheLog(log);
    PartStands(groups, i);
    PartStands(groups, j);
    OffsetsGrow(groups, i, j);
    assert groups[i][0] == log[Offset(groups, i)] && groups[j][0] == log[Offset(groups, j)];
    KeyOfTurn(groups[i], Transcript.QueuedInputReceipts(log));
    KeyOfTurn(groups[j], Transcript.QueuedInputReceipts(log));
  }

  lemma KeyOfTurn(events: seq<Event>, receipts: Transcript.Receipts)
    requires events != []
    ensures TurnOf(events, receipts).key == Some((events[0].sessionId, events[0].seqNo))
  {
  }
}
