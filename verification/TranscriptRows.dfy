/**
 * The transcript as a table: which event makes which row, what the row shows, and which text stands in which
 * paragraph.
 */
module TranscriptRows {
  import opened Options
  import opened Protocol
  import Sequences
  import opened Transcript
  import opened TurnTheorems
  import opened ConfirmedTurns
  import opened AskDecisions

  // ---------------------------------------------------------------- the table

  /** Event `k` is the first change event of its request. */
  ghost predicate IsFirstChange(events: seq<Event>, k: nat) {
    && k < |events| && events[k].event.TurnChanges?
    && forall j | 0 <= j < k ::
         !(events[j].event.TurnChanges? && events[j].event.requestId == events[k].event.requestId)
  }

  /** Event `m` is the last change event of the request. */
  ghost predicate IsLastChange(events: seq<Event>, m: nat, id: string) {
    && m < |events| && events[m].event.TurnChanges? && events[m].event.requestId == id
    && forall j | m < j < |events| :: !(events[j].event.TurnChanges? && events[j].event.requestId == id)
  }

  /** A row that shows an event as it is. */
  predicate ShowsPlainly(e: Event, row: Item) {
    row == EventItem(e.seqNo, e.event, false, Unanswered, Undecided)
  }

  /** The row of a message is hidden exactly if its receipt came earlier with the same text. */
  ghost predicate ShowsMessage(receipts: Receipts, e: Event, row: Item)
    requires e.event.User?
  {
    && row.UserItem? && !row.handoff && row.key == e.seqNo && row.text == e.event.text && row.at == e.at
    && var id := (e.sessionId, e.event.requestId);
       row.hidden <==> id in receipts && receipts[id].0 == e.event.text && receipts[id].1 < e.seqNo
  }

  /** What event `k` is shown as, for every kind of row but text. */
  ghost predicate Shows(events: seq<Event>, receipts: Receipts, k: nat, row: Item)
    requires k < |events|
  {
    var e := events[k];
    match e.event
    case User(_, _) => ShowsMessage(receipts, e, row)
    case QueuedMessageSent(text, id) =>
      && (e.sessionId, id) in receipts && receipts[(e.sessionId, id)].1 == e.seqNo
      && row == UserItem(e.seqNo, text, e.at, true, false)
    case ToolCall(_, _, _) => ShowsPlainly(e, row)
    case ToolResult(_, _, _) => ShowsPlainly(e, row)
    case Notice(_) => ShowsPlainly(e, row)
    case State(_, message) => message != "" && ShowsPlainly(e, row)
    case Question(_, _) => ShowsAsk(events, e, row)
    case Approval(_, _) => ShowsAsk(events, e, row)
    case TurnChanges(id, _) =>
      && IsFirstChange(events, k)
      && exists m: nat :: IsLastChange(events, m, id) && events[m].event.entries > 0
                          && row == EventItem(e.seqNo, events[m].event, false, Unanswered, Undecided)
    case _ => false
  }

  // ---------------------------------------------------------------- which rows are made

  lemma {:induction false} RenderedIs(index: Index, events: seq<Event>, n: nat, id: string)
    requires n <= |events| && forall e | e in events && e.event.TurnChanges? :: e.event.requestId in index.changes
    ensures id in Build(index, events[..n]).rendered
            <==> exists j :: 0 <= j < n && events[j].event.TurnChanges? && events[j].event.requestId == id
    decreases n
  {
    if n > 0 {
      RenderedIs(index, events, n - 1, id);
      Sequences.PrefixGrows(events, n - 1);
      BuildGrows(index, events[..n - 1], events[n - 1]);
      AddRenders(index, Build(index, events[..n - 1]), events[n - 1], id);
    } else {
      assert events[..0] == [];
    }
  }

  lemma AddRenders(index: Index, draft: Draft, e: Event, id: string)
    requires e.event.TurnChanges? ==> e.event.requestId in index.changes
    ensures id in Add(index, draft, e).rendered
            <==> id in draft.rendered || (e.event.TurnChanges? && e.event.requestId == id)
  {
  }

  /** The event makes this row while the row list is built. */
  ghost predicate Built(index: Index, events: seq<Event>, k: nat, row: Item) {
    && k < |events| && RowOf(index, events[k]) == Some(row)
    && (events[k].event.TurnChanges? ==> IsFirstChange(events, k))
  }

  lemma AddHas(index: Index, draft: Draft, e: Event, row: Item)
    requires !row.AssistantItem?
    ensures row in Add(index, draft, e).items
            <==> || row in draft.items
                 || (RowOf(index, e) == Some(row) && !(e.event.TurnChanges? && e.event.requestId in draft.rendered))
  {
    var made := RowOf(index, e);
    if made.Some? {
      AppendHas(draft.items, made.value, row);
    }
  }

  lemma AppendHas(items: seq<Item>, made: Item, row: Item)
    requires !row.AssistantItem?
    ensures row in Append(items, made) <==> row in items || row == made
  {
    if items != [] {
      Sequences.LastSplits(items);
    }
  }

  ghost predicate BuiltBefore(index: Index, events: seq<Event>, n: nat, row: Item) {
    exists k: nat :: k < n && Built(index, events, k, row)
  }

  lemma BuiltNext(index: Index, events: seq<Event>, n: nat, row: Item)
    ensures BuiltBefore(index, events, n + 1, row)
            <==> BuiltBefore(index, events, n, row) || Built(index, events, n, row)
  {
  }

  lemma {:induction false} BuildHas(index: Index, events: seq<Event>, n: nat, row: Item)
    requires n <= |events| && !row.AssistantItem?
    requires forall e | e in events && e.event.TurnChanges? :: e.event.requestId in index.changes
    ensures row in Build(index, events[..n]).items <==> BuiltBefore(index, events, n, row)
    decreases n
  {
    if n > 0 {
      var e, draft := events[n - 1], Build(index, events[..n - 1]);
      BuildHas(index, events, n - 1, row);
      BuiltNext(index, events, n - 1, row);
      Sequences.PrefixGrows(events, n - 1);
      BuildGrows(index, events[..n - 1], e);
      AddHas(index, draft, e, row);
      if e.event.TurnChanges? {
        RenderedIs(index, events, n - 1, e.event.requestId);
      }
    } else {
      assert events[..0] == [];
    }
  }

  // ---------------------------------------------------------------- what they show

  lemma {:induction false} LastChangeAt(events: seq<Event>, id: string) returns (m: nat)
    requires id in LastChanges(events)
    ensures IsLastChange(events, m, id)
    decreases |events|
  {
    var n := |events| - 1;
    if events[n].event.TurnChanges? && events[n].event.requestId == id {
      m := n;
    } else {
      m := LastChangeAt(events[..n], id);
    }
  }

  lemma LastChangeIs(events: seq<Event>, m: nat, id: string)
    requires IsLastChange(events, m, id)
    ensures id in LastChanges(events) && LastChanges(events)[id] == events[m].event
  {
    LastChangesAreLast(events, m);
  }

  lemma ChangeShows(events: seq<Event>, receipts: Receipts, k: nat, row: Item)
    requires k < |events| && events[k].event.TurnChanges?
    ensures Built(IndexOf(events, receipts), events, k, row) && Kept(row) <==> Shows(events, receipts, k, row)
  {
    var id := events[k].event.requestId;
    assert events[k] in events;
    var m := LastChangeAt(events, id);
    LastChangeIs(events, m, id);
    forall x: nat | IsLastChange(events, x, id) ensures events[x].event == events[m].event {
      LastChangeIs(events, x, id);
    }
  }

  /** What is shown of an ask fixes the row. */
  lemma AskRowIsOne(events: seq<Event>, e: Event, row: Item, other: Item)
    requires IsAskEvent(e) && ShowsAsk(events, e, row) && ShowsAsk(events, e, other)
    ensures row == other
  {
    if e.event.Question? {
      if row.answers != Unanswered {
        assert Replied(events, e.event.requestId, row.answers);
      }
      if other.answers != Unanswered {
        assert Replied(events, e.event.requestId, other.answers);
      }
    }
  }

  lemma AskShows(events: seq<Event>, receipts: Receipts, k: nat, row: Item)
    requires k < |events| && IsAskEvent(events[k])
    ensures RowOf(IndexOf(events, receipts), events[k]) == Some(row) <==> ShowsAsk(events, events[k], row)
  {
    var index, e := IndexOf(events, receipts), events[k];
    if e.event.Approval? {
      ApprovalRowShows(events, receipts, e);
    } else {
      QuestionRowShows(events, receipts, e);
    }
    if ShowsAsk(events, e, row) {
      AskRowIsOne(events, e, row, RowOf(index, e).value);
    }
  }

  lemma BuiltShows(events: seq<Event>, receipts: Receipts, k: nat, row: Item)
    requires k < |events| && !row.AssistantItem?
    ensures Built(IndexOf(events, receipts), events, k, row) && Kept(row) <==> Shows(events, receipts, k, row)
  {
    if IsAskEvent(events[k]) {
      AskShows(events, receipts, k, row);
    } else if events[k].event.TurnChanges? {
      ChangeShows(events, receipts, k, row);
    }
  }

  /**
   * Every row of the transcript that is not text shows one event as the table says, and every event that the table
   * gives a row has it. In particular a change card stands where the changes of its request were first recorded,
   * shows the last ones, and is left out exactly if those are empty.
   */
  lemma RowsAreTheTable(events: seq<Event>, receipts: Receipts, row: Item)
    requires !row.AssistantItem?
    ensures row in TurnItems(events, receipts) <==> exists k :: 0 <= k < |events| && Shows(events, receipts, k, row)
  {
    var index := IndexOf(events, receipts);
    assert events[..|events|] == events;
    BuildHas(index, events, |events|, row);
    KeepRowsIs(Build(index, events).items, row);
    forall k: nat | k < |events|
      ensures Built(index, events, k, row) && Kept(row) <==> Shows(events, receipts, k, row)
    {
      BuiltShows(events, receipts, k, row);
    }
    if row in TurnItems(events, receipts) {
      var k: nat :| k < |events| && Built(index, events, k, row);
      assert Shows(events, receipts, k, row);
    }
  }

  // ---------------------------------------------------------------- which text stands where

  /** The text of the events numbered from `low` to below `high`. */
  function ProseIn(events: seq<Event>, low: int, high: int): string {
    if events == [] then ""
    else
      var n := |events| - 1;
      ProseIn(events[..n], low, high)
      + (if events[n].event.Text? && low <= events[n].seqNo < high then events[n].event.text else "")
  }

  lemma ProseInSnoc(events: seq<Event>, e: Event, low: int, high: int)
    ensures ProseIn(events + [e], low, high)
            == ProseIn(events, low, high) + (if e.event.Text? && low <= e.seqNo < high then e.event.text else "")
  {
    assert (events + [e])[..|events|] == events;
  }

  /** All events are numbered below the bound. */
  ghost predicate Below(events: seq<Event>, bound: int) {
    forall e | e in events :: e.seqNo < bound
  }

  lemma BelowParts(front: seq<Event>, last: Event, bound: int)
    requires Below(front + [last], bound)
    ensures Below(front, bound) && last.seqNo < bound
  {
    assert last in front + [last] && forall e | e in front :: e in front + [last];
  }

  lemma {:induction false} ProseBelow(events: seq<Event>, low: int, high: int, higher: int)
    requires Below(events, high) && high <= higher
    ensures ProseIn(events, low, higher) == ProseIn(events, low, high)
  {
    if events != [] {
      var front, last := events[..|events| - 1], events[|events| - 1];
      Sequences.LastSplits(events);
      BelowParts(front, last, high);
      ProseBelow(front, low, high, higher);
    }
  }

  lemma {:induction false} ProseAbove(events: seq<Event>, low: int, high: int)
    requires Below(events, low)
    ensures ProseIn(events, low, high) == ""
  {
    if events != [] {
      var front, last := events[..|events| - 1], events[|events| - 1];
      Sequences.LastSplits(events);
      BelowParts(front, last, low);
      ProseAbove(front, low, high);
    }
  }

  /** Where the stretch of a row ends: at the next row, or at the bound. */
  function EndOf(items: seq<Item>, i: nat, bound: int): int
    requires i < |items|
  {
    if i + 1 < |items| then items[i + 1].key else bound
  }

  function TextOf(row: Item): string {
    if row.AssistantItem? then row.text else ""
  }

  ghost predicate RowHolds(events: seq<Event>, items: seq<Item>, i: nat, bound: int)
    requires i < |items|
  {
    TextOf(items[i]) == ProseIn(events, items[i].key, EndOf(items, i, bound))
  }

  /** Every row holds the text of its stretch; rows of other kinds have none in theirs. */
  ghost predicate HoldsItsText(events: seq<Event>, items: seq<Item>, bound: int) {
    forall i | 0 <= i < |items| :: RowHolds(events, items, i, bound)
  }

  /** No text stands before the first row. */
  ghost predicate NoneBefore(events: seq<Event>, items: seq<Item>, bound: int) {
    ProseIn(events, 0, if items == [] then bound else items[0].key) == ""
  }

  /** The rows so far hold the text so far. */
  ghost predicate Holds(events: seq<Event>, items: seq<Item>, bound: int) {
    && Below(events, bound) && HoldsItsText(events, items, bound) && NoneBefore(events, items, bound)
    && (forall item | item in items :: item.key < bound) && KeysIncrease(items)
  }

  lemma EndIsBelow(items: seq<Item>, i: nat, bound: int)
    requires i < |items| && forall item | item in items :: item.key < bound
    ensures EndOf(items, i, bound) <= bound
  {
  }

  /** A later event changes a stretch only if it is text and the stretch is open at its end. */
  lemma RowStillHolds(events: seq<Event>, items: seq<Item>, i: nat, bound: int, e: Event, end: int)
    requires Below(events, bound) && bound <= e.seqNo && i < |items| && RowHolds(events, items, i, bound)
    requires EndOf(items, i, bound) <= bound && (e.event.Text? ==> end <= e.seqNo)
    requires if i + 1 < |items| then end == items[i + 1].key else bound <= end
    ensures TextOf(items[i]) == ProseIn(events + [e], items[i].key, end)
  {
    ProseInSnoc(events, e, items[i].key, end);
    if i + 1 == |items| {
      ProseBelow(events, items[i].key, bound, end);
    }
  }

  lemma NoneStillBefore(events: seq<Event>, items: seq<Item>, bound: int, e: Event, end: int)
    requires Below(events, bound) && bound <= e.seqNo && NoneBefore(events, items, bound)
    requires if items != [] then end == items[0].key < bound else bound <= end
    requires e.event.Text? ==> end <= e.seqNo
    ensures ProseIn(events + [e], 0, end) == ""
  {
    ProseInSnoc(events, e, 0, end);
    if items == [] {
      ProseBelow(events, 0, bound, end);
    }
  }

  /** An event without a row of its own leaves the stretches as they are. */
  lemma HoldsSilent(events: seq<Event>, items: seq<Item>, bound: int, e: Event)
    requires Holds(events, items, bound) && bound <= e.seqNo && !e.event.Text?
    ensures Holds(events + [e], items, e.seqNo + 1)
  {
    var after := e.seqNo + 1;
    forall i | 0 <= i < |items| ensures RowHolds(events + [e], items, i, after) {
      EndIsBelow(items, i, bound);
      assert RowHolds(events, items, i, bound);
      RowStillHolds(events, items, i, bound, e, EndOf(items, i, after));
    }
    NoneStillBefore(events, items, bound, e, if items == [] then e.seqNo + 1 else items[0].key);
  }

  lemma OldRowHolds(events: seq<Event>, items: seq<Item>, i: nat, bound: int, e: Event, row: Item)
    requires Holds(events, items, bound) && bound <= e.seqNo && row.key == e.seqNo && i < |items|
    ensures RowHolds(events + [e], items + [row], i, e.seqNo + 1)
  {
    EndIsBelow(items, i, bound);
    assert RowHolds(events, items, i, bound);
    var end := if i + 1 < |items| then items[i + 1].key else row.key;
    RowStillHolds(events, items, i, bound, e, end);
    assert (items + [row])[i] == items[i] && EndOf(items + [row], i, e.seqNo + 1) == end;
  }

  lemma NewRowHolds(events: seq<Event>, items: seq<Item>, bound: int, e: Event, row: Item)
    requires Below(events, bound) && bound <= e.seqNo && row.key == e.seqNo
    requires TextOf(row) == if e.event.Text? then e.event.text else ""
    ensures RowHolds(events + [e], items + [row], |items|, e.seqNo + 1)
  {
    ProseInSnoc(events, e, row.key, e.seqNo + 1);
    ProseAbove(events, row.key, e.seqNo + 1);
  }

  lemma RowsHoldNew(events: seq<Event>, items: seq<Item>, bound: int, e: Event, row: Item)
    requires Holds(events, items, bound) && bound <= e.seqNo && row.key == e.seqNo
    requires TextOf(row) == if e.event.Text? then e.event.text else ""
    ensures HoldsItsText(events + [e], items + [row], e.seqNo + 1)
  {
    var more, after := items + [row], e.seqNo + 1;
    forall i | 0 <= i < |more| ensures RowHolds(events + [e], more, i, after) {
      if i < |items| {
        OldRowHolds(events, items, i, bound, e, row);
      } else {
        NewRowHolds(events, items, bound, e, row);
      }
    }
  }

  lemma BelowSnoc(events: seq<Event>, e: Event, bound: int)
    requires Below(events, bound) && bound <= e.seqNo
    ensures Below(events + [e], e.seqNo + 1)
  {
  }

  lemma KeysSnoc(items: seq<Item>, row: Item, bound: int)
    requires KeysIncrease(items) && (forall item | item in items :: item.key < bound) && bound <= row.key
    ensures KeysIncrease(items + [row]) && forall item | item in items + [row] :: item.key < row.key + 1
  {
    assert forall i | 0 <= i < |items| :: items[i] in items;
  }

  lemma NoneBeforeNew(events: seq<Event>, items: seq<Item>, bound: int, e: Event, row: Item)
    requires Holds(events, items, bound) && bound <= e.seqNo && row.key == e.seqNo
    ensures NoneBefore(events + [e], items + [row], e.seqNo + 1)
  {
    assert items != [] ==> items[0] in items;
    NoneStillBefore(events, items, bound, e, if items == [] then row.key else items[0].key);
    assert (items + [row])[0] == if items == [] then row else items[0];
  }

  /** A new row takes the text of its event and ends the stretch before it. */
  lemma HoldsNewRow(events: seq<Event>, items: seq<Item>, bound: int, e: Event, row: Item)
    requires Holds(events, items, bound) && bound <= e.seqNo && row.key == e.seqNo
    requires TextOf(row) == if e.event.Text? then e.event.text else ""
    ensures Holds(events + [e], items + [row], e.seqNo + 1)
  {
    RowsHoldNew(events, items, bound, e, row);
    BelowSnoc(events, e, bound);
    KeysSnoc(items, row, bound);
    NoneBeforeNew(events, items, bound, e, row);
  }

  /** The same keys: one row stands for the other. */
  ghost predicate SameKeys(items: seq<Item>, more: seq<Item>) {
    |items| == |more| && forall i | 0 <= i < |items| :: items[i].key == more[i].key
  }

  lemma SameEnds(items: seq<Item>, more: seq<Item>, i: nat, bound: int)
    requires SameKeys(items, more) && i < |items|
    ensures EndOf(more, i, bound) == EndOf(items, i, bound)
  {
  }

  lemma LongerRowHolds(events: seq<Event>, front: seq<Item>, last: Item, bound: int, e: Event)
    requires last.AssistantItem? && Below(events, bound) && bound <= e.seqNo && e.event.Text? && last.key < bound
    requires RowHolds(events, front + [last], |front|, bound)
    ensures RowHolds(events + [e], front + [AssistantItem(last.key, last.text + e.event.text)], |front|, e.seqNo + 1)
  {
    ProseInSnoc(events, e, last.key, e.seqNo + 1);
    ProseBelow(events, last.key, bound, e.seqNo + 1);
  }

  /** Text that continues the last row joins its stretch. */
  lemma HoldsLonger(events: seq<Event>, front: seq<Item>, last: Item, bound: int, e: Event)
    requires last.AssistantItem? && Holds(events, front + [last], bound) && bound <= e.seqNo && e.event.Text?
    ensures Holds(events + [e], front + [AssistantItem(last.key, last.text + e.event.text)], e.seqNo + 1)
  {
    var items, more := front + [last], front + [AssistantItem(last.key, last.text + e.event.text)];
    var after := e.seqNo + 1;
    assert SameKeys(items, more);
    forall i | 0 <= i < |more| ensures RowHolds(events + [e], more, i, after) {
      assert RowHolds(events, items, i, bound) && items[i] in items;
      if i < |front| {
        InnerRowHolds(events, front, last, bound, e, more, i);
      } else {
        LongerRowHolds(events, front, last, bound, e);
      }
    }
    assert items[0] in items && items[0].key == more[0].key;
    NoneStillBefore(events, items, bound, e, items[0].key);
  }

  lemma InnerRowHolds(
    events: seq<Event>, front: seq<Item>, last: Item, bound: int, e: Event, more: seq<Item>, i: nat)
    requires Holds(events, front + [last], bound) && bound <= e.seqNo && i < |front|
    requires SameKeys(front + [last], more) && more[i] == front[i]
    ensures RowHolds(events + [e], more, i, e.seqNo + 1)
  {
    var items := front + [last];
    assert RowHolds(events, items, i, bound) && items[i + 1] in items;
    SameEnds(items, more, i, e.seqNo + 1);
    RowStillHolds(events, items, i, bound, e, items[i + 1].key);
  }

  lemma AddHolds(index: Index, events: seq<Event>, draft: Draft, bound: int, e: Event)
    requires Holds(events, draft.items, bound) && bound <= e.seqNo
    ensures Holds(events + [e], Add(index, draft, e).items, e.seqNo + 1)
  {
    var row := RowOf(index, e);
    if row.None? || (e.event.TurnChanges? && e.event.requestId in draft.rendered) {
      HoldsSilent(events, draft.items, bound, e);
    } else if e.event.Text? && draft.items != [] && draft.items[|draft.items| - 1].AssistantItem? {
      Sequences.LastSplits(draft.items);
      HoldsLonger(events, draft.items[..|draft.items| - 1], draft.items[|draft.items| - 1], bound, e);
    } else {
      RowText(index, e);
      HoldsNewRow(events, draft.items, bound, e, row.value);
    }
  }

  lemma RowText(index: Index, e: Event)
    requires RowOf(index, e).Some?
    ensures RowOf(index, e).value.key == e.seqNo && (RowOf(index, e).value.AssistantItem? <==> e.event.Text?)
    ensures TextOf(RowOf(index, e).value) == if e.event.Text? then e.event.text else ""
  {
  }

  /** The bound after all events. */
  function BoundOf(events: seq<Event>): int {
    if events == [] then 0 else events[|events| - 1].seqNo + 1
  }

  lemma BoundGrows(events: seq<Event>)
    requires EventsIncrease(events) && events != []
    ensures EventsIncrease(events[..|events| - 1]) && BoundOf(events[..|events| - 1]) <= events[|events| - 1].seqNo
  {
  }

  lemma {:induction false} BuildHolds(index: Index, events: seq<Event>)
    requires EventsIncrease(events)
    ensures Holds(events, Build(index, events).items, BoundOf(events))
    decreases |events|
  {
    if events == [] {
      NothingHolds(index);
    } else {
      var front, last := events[..|events| - 1], events[|events| - 1];
      BoundGrows(events);
      BuildHolds(index, front);
      Sequences.LastSplits(events);
      AddHolds(index, front, Build(index, front), BoundOf(front), last);
    }
  }

  lemma NothingHolds(index: Index)
    ensures Holds([], Build(index, []).items, 0)
  {
  }

  // ---------------------------------------------------------------- dropping empty cards

  lemma FrontIsBelow(events: seq<Event>, bound: int)
    requires EventsIncrease(events) && events != [] && events[|events| - 1].seqNo < bound
    ensures Below(events[..|events| - 1], bound)
  {
  }

  lemma ProseLast(front: seq<Event>, last: Event, low: int, high: int) returns (text: string)
    ensures ProseIn(front + [last], low, high) == ProseIn(front, low, high) + text
    ensures text == if last.event.Text? && low <= last.seqNo < high then last.event.text else ""
  {
    text := if last.event.Text? && low <= last.seqNo < high then last.event.text else "";
    ProseInSnoc(front, last, low, high);
  }

  lemma SplitsBefore(front: seq<Event>, last: Event, low: int, middle: int, high: int)
    requires low <= middle <= high && last.seqNo < middle && ProseIn(front, middle, high) == ""
    requires ProseIn(front, low, high) == ProseIn(front, low, middle) + ProseIn(front, middle, high)
    ensures ProseIn(front + [last], low, high)
            == ProseIn(front + [last], low, middle) + ProseIn(front + [last], middle, high)
  {
    var a := ProseLast(front, last, low, high);
    var b := ProseLast(front, last, low, middle);
    var c := ProseLast(front, last, middle, high);
    assert ProseIn(front, low, high) == ProseIn(front, low, middle);
  }

  lemma SplitsAfter(front: seq<Event>, last: Event, low: int, middle: int, high: int)
    requires low <= middle <= high && middle <= last.seqNo
    requires ProseIn(front, low, high) == ProseIn(front, low, middle) + ProseIn(front, middle, high)
    ensures ProseIn(front + [last], low, high)
            == ProseIn(front + [last], low, middle) + ProseIn(front + [last], middle, high)
  {
    var a := ProseLast(front, last, low, high);
    var b := ProseLast(front, last, low, middle);
    var c := ProseLast(front, last, middle, high);
    assert b == "" && a == c;
    Sequences.Associates(ProseIn(front, low, middle), ProseIn(front, middle, high), c);
  }

  lemma {:induction false} ProseSplits(events: seq<Event>, low: int, middle: int, high: int)
    requires EventsIncrease(events) && low <= middle <= high
    ensures ProseIn(events, low, high) == ProseIn(events, low, middle) + ProseIn(events, middle, high)
  {
    if events != [] {
      var front, last := events[..|events| - 1], events[|events| - 1];
      ProseSplits(front, low, middle, high);
      Sequences.LastSplits(events);
      if last.seqNo < middle {
        FrontIsBelow(events, middle);
        ProseAbove(front, middle, high);
        SplitsBefore(front, last, low, middle, high);
      } else {
        SplitsAfter(front, last, low, middle, high);
      }
    }
  }

  lemma HoldsFront(events: seq<Event>, front: seq<Item>, last: Item, bound: int)
    requires HoldsItsText(events, front + [last], bound)
    ensures HoldsItsText(events, front, last.key) && TextOf(last) == ProseIn(events, last.key, bound)
  {
    var items := front + [last];
    forall i | 0 <= i < |front| ensures RowHolds(events, front, i, last.key) {
      assert RowHolds(events, items, i, bound);
      EndOfSnoc(front, last, i, bound);
    }
    assert RowHolds(events, items, |front|, bound);
  }

  lemma EndOfSnoc(items: seq<Item>, row: Item, i: nat, bound: int)
    requires i < |items|
    ensures (items + [row])[i] == items[i] && EndOf(items + [row], i, bound) == EndOf(items, i, row.key)
  {
  }

  lemma HoldsBack(events: seq<Event>, front: seq<Item>, last: Item, bound: int)
    requires HoldsItsText(events, front, last.key) && TextOf(last) == ProseIn(events, last.key, bound)
    ensures HoldsItsText(events, front + [last], bound)
  {
    var items := front + [last];
    forall i | 0 <= i < |items| ensures RowHolds(events, items, i, bound) {
      if i < |front| {
        assert RowHolds(events, front, i, last.key);
        EndOfSnoc(front, last, i, bound);
      }
    }
  }

  ghost predicate UpTo(items: seq<Item>, bound: int) {
    forall item | item in items :: item.key <= bound
  }

  /** A stretch without text may join the one before. */
  lemma HoldsWider(events: seq<Event>, items: seq<Item>, bound: int, wider: int)
    requires EventsIncrease(events) && HoldsItsText(events, items, bound) && bound <= wider
    requires ProseIn(events, bound, wider) == "" && UpTo(items, bound)
    ensures HoldsItsText(events, items, wider)
  {
    forall i | 0 <= i < |items| ensures RowHolds(events, items, i, wider) {
      assert RowHolds(events, items, i, bound);
      if i + 1 == |items| {
        ProseSplits(events, items[i].key, bound, wider);
        assert ProseIn(events, items[i].key, bound) + "" == ProseIn(events, items[i].key, bound);
      }
    }
  }

  lemma FrontIsUpTo(front: seq<Item>, last: Item)
    requires KeysIncrease(front + [last])
    ensures KeysIncrease(front) && UpTo(front, last.key)
  {
    var items := front + [last];
    forall i | 0 <= i < |front| ensures front[i] == items[i] && items[i].key < items[|front|].key {
    }
  }

  lemma KeepSnoc(front: seq<Item>, last: Item)
    ensures KeepRows(front + [last]) == if Kept(last) then KeepRows(front) + [last] else KeepRows(front)
  {
    assert (front + [last])[..|front|] == front;
  }

  lemma KeptStaysUpTo(items: seq<Item>, bound: int)
    requires KeysIncrease(items) && UpTo(items, bound)
    ensures UpTo(KeepRows(items), bound)
  {
    KeepRowsIncreases(items);
  }

  lemma {:induction false} KeptHoldsItsText(events: seq<Event>, items: seq<Item>, bound: int)
    requires EventsIncrease(events) && KeysIncrease(items) && HoldsItsText(events, items, bound) && UpTo(items, bound)
    ensures HoldsItsText(events, KeepRows(items), bound)
    decreases |items|
  {
    if items != [] {
      var front, last := items[..|items| - 1], items[|items| - 1];
      Sequences.LastSplits(items);
      FrontIsUpTo(front, last);
      HoldsFront(events, front, last, bound);
      KeptHoldsItsText(events, front, last.key);
      KeepSnoc(front, last);
      if Kept(last) {
        HoldsBack(events, KeepRows(front), last, bound);
      } else {
        KeptStaysUpTo(front, last.key);
        HoldsWider(events, KeepRows(front), last.key, bound);
      }
    }
  }

  lemma TranscriptHolds(events: seq<Event>, receipts: Receipts)
    requires EventsIncrease(events)
    ensures HoldsItsText(events, TurnItems(events, receipts), BoundOf(events))
  {
    var index := IndexOf(events, receipts);
    BuildHolds(index, events);
    KeptHoldsItsText(events, Build(index, events).items, BoundOf(events));
  }

  lemma RowHoldsText(events: seq<Event>, items: seq<Item>, bound: int, i: nat)
    requires HoldsItsText(events, items, bound) && i < |items|
    ensures (if items[i].AssistantItem? then items[i].text else "")
            == ProseIn(events, items[i].key, if i + 1 < |items| then items[i + 1].key else bound)
  {
    assert RowHolds(events, items, i, bound);
  }

  /**
   * A paragraph of the transcript holds exactly the text of the events from its own number up to the next row, in
   * order, and no text stands where another row does.
   */
  lemma ParagraphsHoldTheirText(events: seq<Event>, receipts: Receipts, i: nat)
    requires EventsIncrease(events) && i < |TurnItems(events, receipts)|
    ensures var items := TurnItems(events, receipts);
      (if items[i].AssistantItem? then items[i].text else "")
      == ProseIn(events, items[i].key,
                 if i + 1 < |items| then items[i + 1].key
                 else if events == [] then 0 else events[|events| - 1].seqNo + 1)
  {
    TranscriptHolds(events, receipts);
    RowHoldsText(events, TurnItems(events, receipts), BoundOf(events), i);
  }

  // ---------------------------------------------------------------- paragraphs are not cut

  ghost predicate NoNeighbours(items: seq<Item>) {
    forall i | 0 <= i < |items| - 1 :: !(items[i].AssistantItem? && items[i + 1].AssistantItem?)
  }

  lemma AppendKeepsApart(items: seq<Item>, row: Item)
    requires NoNeighbours(items)
    ensures NoNeighbours(Append(items, row))
  {
    var more := Append(items, row);
    forall i | 0 <= i < |more| - 1 ensures !(more[i].AssistantItem? && more[i + 1].AssistantItem?) {
      if i + 1 < |items| {
        assert !(items[i].AssistantItem? && items[i + 1].AssistantItem?);
      }
    }
  }

  lemma {:induction false} BuildKeepsApart(index: Index, events: seq<Event>)
    ensures NoNeighbours(Build(index, events).items)
    decreases |events|
  {
    if events != [] {
      var front, last := events[..|events| - 1], events[|events| - 1];
      BuildKeepsApart(index, front);
      if RowOf(index, last).Some? {
        AppendKeepsApart(Build(index, front).items, RowOf(index, last).value);
      }
    }
  }

  /** A row that was dropped stands between the two keys. */
  ghost predicate Parted(items: seq<Item>, low: nat, high: nat) {
    exists d :: d in items && !Kept(d) && low < d.key < high
  }

  ghost predicate PartedNeighbours(items: seq<Item>, kept: seq<Item>) {
    forall i | 0 <= i < |kept| - 1 && kept[i].AssistantItem? && kept[i + 1].AssistantItem? ::
      Parted(items, kept[i].key, kept[i + 1].key)
  }

  lemma {:induction false} LastKept(items: seq<Item>)
    requires KeepRows(items) != []
    ensures var kept := KeepRows(items)[|KeepRows(items)| - 1];
      items != [] && kept in items && (Kept(items[|items| - 1]) ==> kept == items[|items| - 1])
  {
    var front := items[..|items| - 1];
    if !Kept(items[|items| - 1]) {
      LastKept(front);
    }
  }

  lemma PartedSnoc(front: seq<Item>, last: Item)
    requires KeysIncrease(front + [last]) && NoNeighbours(front + [last]) && Kept(last)
    requires PartedNeighbours(front, KeepRows(front))
    ensures PartedNeighbours(front + [last], KeepRows(front) + [last])
  {
    var items, before, kept := front + [last], KeepRows(front), KeepRows(front) + [last];
    forall i | 0 <= i < |kept| - 1 && kept[i].AssistantItem? && kept[i + 1].AssistantItem?
      ensures Parted(items, kept[i].key, kept[i + 1].key)
    {
      if i + 1 < |before| {
        var d :| d in front && !Kept(d) && before[i].key < d.key < before[i + 1].key;
        assert d in items;
      } else {
        LastKept(front);
        LastIsParted(front, last, before[i]);
      }
    }
  }

  lemma LastIsParted(front: seq<Item>, last: Item, kept: Item)
    requires KeysIncrease(front + [last]) && NoNeighbours(front + [last]) && last.AssistantItem?
    requires kept.AssistantItem? && kept in front && (Kept(front[|front| - 1]) ==> kept == front[|front| - 1])
    ensures Parted(front + [last], kept.key, last.key)
  {
    var items, n := front + [last], |front| - 1;
    assert items[n] == front[n] && items[n + 1] == last;
    assert !front[n].AssistantItem?;
    var i :| 0 <= i < |front| && front[i] == kept;
    assert items[i].key < items[n].key < items[n + 1].key;
    assert front[n] in items;
  }

  lemma {:induction false} KeptAreParted(items: seq<Item>)
    requires KeysIncrease(items) && NoNeighbours(items)
    ensures PartedNeighbours(items, KeepRows(items))
    decreases |items|
  {
    if items != [] {
      var front, last := items[..|items| - 1], items[|items| - 1];
      Sequences.LastSplits(items);
      KeptAreParted(front);
      if Kept(last) {
        PartedSnoc(front, last);
      } else {
        StillParted(front, last, KeepRows(front));
      }
    }
  }

  lemma StillParted(front: seq<Item>, last: Item, kept: seq<Item>)
    requires PartedNeighbours(front, kept)
    ensures PartedNeighbours(front + [last], kept)
  {
    forall i | 0 <= i < |kept| - 1 && kept[i].AssistantItem? && kept[i + 1].AssistantItem?
      ensures Parted(front + [last], kept[i].key, kept[i + 1].key)
    {
      var d :| d in front && !Kept(d) && kept[i].key < d.key < kept[i + 1].key;
      assert d in front + [last];
    }
  }

  /** Text is cut into two paragraphs without a row between them only where an empty change card was left out. */
  lemma NeighboursAreParted(events: seq<Event>, receipts: Receipts, i: nat) returns (k: nat)
    requires EventsIncrease(events) && i + 1 < |TurnItems(events, receipts)|
    requires TurnItems(events, receipts)[i].AssistantItem? && TurnItems(events, receipts)[i + 1].AssistantItem?
    ensures IsFirstChange(events, k)
    ensures TurnItems(events, receipts)[i].key < events[k].seqNo < TurnItems(events, receipts)[i + 1].key
    ensures forall m: nat | IsLastChange(events, m, events[k].event.requestId) :: events[m].event.entries == 0
  {
    var index, items := IndexOf(events, receipts), TurnItems(events, receipts);
    var built := Build(index, events).items;
    assert events[..|events|] == events;
    BuildIncreases(index, events, |events|);
    BuildKeepsApart(index, events);
    KeptAreParted(built);
    var d :| d in built && !Kept(d) && items[i].key < d.key < items[i + 1].key;
    BuildHas(index, events, |events|, d);
    k :| k < |events| && Built(index, events, k, d);
    DroppedIsChange(events, receipts, k, d);
  }

  lemma DroppedIsChange(events: seq<Event>, receipts: Receipts, k: nat, d: Item)
    requires Built(IndexOf(events, receipts), events, k, d) && !Kept(d)
    ensures IsFirstChange(events, k) && events[k].seqNo == d.key
    ensures forall m: nat | IsLastChange(events, m, events[k].event.requestId) :: events[m].event.entries == 0
  {
    forall m: nat | IsLastChange(events, m, events[k].event.requestId) ensures events[m].event.entries == 0 {
      LastChangeIs(events, m, events[k].event.requestId);
    }
  }
}
