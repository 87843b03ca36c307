/** The plain transcript: events in order, with text merged and approvals and questions resolved. */
module Transcript {
  import opened Options
  import opened Protocol

  /** Receipts of queued messages, by session and request: the text and position of the first. */
  type Receipts = map<(string, string), (string, nat)>

  ghost predicate EventsIncrease(events: seq<Event>) {
    forall i, j | 0 <= i < j < |events| :: events[i].seqNo < events[j].seqNo
  }

  // ---------------------------------------------------------------- indexes over the whole log

  function QueuedInputReceipts(events: seq<Event>): Receipts {
    if events == [] then map[]
    else
      var n := |events| - 1;
      var e, before := events[n], QueuedInputReceipts(events[..n]);
      if e.event.QueuedMessageSent? && (e.sessionId, e.event.requestId) !in before then
        before[(e.sessionId, e.event.requestId) := (e.event.text, e.seqNo)]
      else before
  }

  function Decisions(events: seq<Event>): map<string, bool> {
    if events == [] then map[]
    else
      var n := |events| - 1;
      var kind, before := events[n].event, Decisions(events[..n]);
      if kind.ApprovalResolved? then before[kind.requestId := kind.allow] else before
  }

  function Replies(events: seq<Event>): map<string, QuestionReply> {
    if events == [] then map[]
    else
      var n := |events| - 1;
      var kind, before := events[n].event, Replies(events[..n]);
      if kind.QuestionResolved? then before[kind.requestId := kind.reply] else before
  }

  /** The last recorded changes of each request. */
  function LastChanges(events: seq<Event>): (changes: map<string, EventKind>)
    ensures forall e | e in events && e.event.TurnChanges? :: e.event.requestId in changes
    ensures forall id | id in changes :: changes[id].TurnChanges? && changes[id].requestId == id
  {
    if events == [] then map[]
    else
      var n := |events| - 1;
      var kind, before := events[n].event, LastChanges(events[..n]);
      if kind.TurnChanges? then before[kind.requestId := kind] else before
  }

  /** The positions of the states that end a turn. */
  function Terminals(events: seq<Event>): (terminal: seq<nat>)
    ensures forall t :: t in terminal <==> exists e :: e in events && IsTerminal(e.event) && e.seqNo == t
  {
    if events == [] then []
    else
      var n := |events| - 1;
      var rest := Terminals(events[..n]);
      assert events == events[..n] + [events[n]];
      if IsTerminal(events[n].event) then rest + [events[n].seqNo] else rest
  }

  datatype Index = Index(
    receipts: Receipts,
    decisions: map<string, bool>,
    replies: map<string, QuestionReply>,
    changes: map<string, EventKind>,
    terminal: seq<nat>)

  function IndexOf(events: seq<Event>, receipts: Receipts): Index {
    Index(receipts, Decisions(events), Replies(events), LastChanges(events), Terminals(events))
  }

  /** Of several changes recorded for a request the last one counts. */
  lemma {:induction false} LastChangesAreLast(events: seq<Event>, k: nat)
    requires k < |events| && events[k].event.TurnChanges?
    requires forall j | k < j < |events| && events[j].event.TurnChanges? ::
               events[j].event.requestId != events[k].event.requestId
    ensures var id := events[k].event.requestId;
      id in LastChanges(events) && LastChanges(events)[id] == events[k].event
    decreases |events|
  {
    var n := |events| - 1;
    if k < n {
      LastChangesAreLast(events[..n], k);
      assert events[n].event.TurnChanges? ==> events[n].event.requestId != events[k].event.requestId;
    }
  }

  lemma IncreasingGrows(positions: seq<nat>, last: nat)
    requires Increasing(positions) && forall t | t in positions :: t < last
    ensures Increasing(positions + [last])
  {
    assert forall i | 0 <= i < |positions| :: positions[i] in positions;
  }

  /** Events in order give their terminal positions in order, each once. */
  lemma {:induction false} TerminalsIncrease(events: seq<Event>)
    requires EventsIncrease(events)
    ensures Increasing(Terminals(events))
  {
    if events != [] {
      var n := |events| - 1;
      var front := Terminals(events[..n]);
      TerminalsIncrease(events[..n]);
      forall t | t in front ensures t < events[n].seqNo {
        var e :| e in events[..n] && IsTerminal(e.event) && e.seqNo == t;
      }
      IncreasingGrows(front, events[n].seqNo);
    }
  }

  /** The event is the first receipt of this message of the session. */
  ghost predicate FirstReceipt(events: seq<Event>, k: nat, session: string, id: string) {
    && k < |events| && IsReceipt(events[k], session, id)
    && forall j | 0 <= j < k :: !IsReceipt(events[j], session, id)
  }

  predicate IsReceipt(e: Event, session: string, id: string) {
    e.event.QueuedMessageSent? && e.sessionId == session && e.event.requestId == id
  }

  lemma {:induction false} NoReceipt(events: seq<Event>, session: string, id: string)
    requires forall j | 0 <= j < |events| :: !IsReceipt(events[j], session, id)
    ensures (session, id) !in QueuedInputReceipts(events)
    decreases |events|
  {
    if events != [] {
      var n := |events| - 1;
      assert !IsReceipt(events[n], session, id);
      forall j | 0 <= j < n ensures !IsReceipt(events[..n][j], session, id) {
        assert !IsReceipt(events[j], session, id);
      }
      NoReceipt(events[..n], session, id);
    }
  }

  /** Of several receipts of a message the first one counts. */
  lemma {:induction false} ReceiptIsFirst(events: seq<Event>, k: nat, session: string, id: string)
    requires FirstReceipt(events, k, session, id)
    ensures (session, id) in QueuedInputReceipts(events)
    ensures QueuedInputReceipts(events)[(session, id)] == (events[k].event.text, events[k].seqNo)
    decreases |events|
  {
    var n := |events| - 1;
    forall j | 0 <= j < k ensures !IsReceipt(events[..n][j], session, id) {
      assert !IsReceipt(events[j], session, id);
    }
    if k < n {
      ReceiptIsFirst(events[..n], k, session, id);
    } else {
      NoReceipt(events[..n], session, id);
    }
  }

  lemma {:induction false} FirstExists(events: seq<Event>, j: nat, session: string, id: string) returns (k: nat)
    requires j < |events| && IsReceipt(events[j], session, id)
    ensures FirstReceipt(events, k, session, id)
    decreases j
  {
    if i :| 0 <= i < j && IsReceipt(events[i], session, id) {
      k := FirstExists(events, i, session, id);
    } else {
      k := j;
    }
  }

  // ---------------------------------------------------------------- one event

  function UserRow(index: Index, e: Event): Item
    requires e.event.User?
  {
    var key := (e.sessionId, e.event.requestId);
    var hidden := key in index.receipts && index.receipts[key].0 == e.event.text && index.receipts[key].1 < e.seqNo;
    UserItem(e.seqNo, e.event.text, e.at, false, hidden)
  }

  predicate EndedAfter(index: Index, key: nat) {
    exists end | end in index.terminal :: end > key
  }

  function EventRow(e: Event): Item {
    EventItem(e.seqNo, e.event, false, Unanswered, Undecided)
  }

  function QuestionRow(index: Index, e: Event): Item
    requires e.event.Question?
  {
    var id := e.event.requestId;
    EventItem(e.seqNo, e.event, id in index.replies || EndedAfter(index, e.seqNo),
              if id in index.replies then index.replies[id] else Unanswered, Undecided)
  }

  function ApprovalRow(index: Index, e: Event): Item
    requires e.event.Approval?
  {
    var id, inactive := e.event.requestId, EndedAfter(index, e.seqNo);
    EventItem(e.seqNo, e.event, inactive || id in index.decisions, Unanswered,
              if id in index.decisions then (if index.decisions[id] then Allowed else Refused)
              else if inactive then Lapsed else Undecided)
  }

  lemma OnlyFirst(events: seq<Event>, i: nat, k: nat, session: string, id: string)
    requires FirstReceipt(events, i, session, id) && FirstReceipt(events, k, session, id)
    ensures i <= k
  {
  }

  /** The first receipt of the message came earlier and said the same. */
  ghost predicate Announced(log: seq<Event>, e: Event)
    requires e.event.User?
  {
    exists k: nat :: FirstReceipt(log, k, e.sessionId, e.event.requestId)
                     && log[k].event.text == e.event.text && log[k].seqNo < e.seqNo
  }

  /** A message is hidden exactly if the first receipt of the same message of the session came earlier with its text. */
  lemma HiddenIff(log: seq<Event>, events: seq<Event>, e: Event)
    requires e.event.User?
    ensures UserRow(IndexOf(events, QueuedInputReceipts(log)), e).hidden <==> Announced(log, e)
  {
    var id := e.event.requestId;
    if j :| 0 <= j < |log| && IsReceipt(log[j], e.sessionId, id) {
      var k := FirstExists(log, j, e.sessionId, id);
      ReceiptIsFirst(log, k, e.sessionId, id);
      forall i: nat | FirstReceipt(log, i, e.sessionId, id) ensures i == k {
        OnlyFirst(log, i, k, e.sessionId, id);
        OnlyFirst(log, k, i, e.sessionId, id);
      }
    } else {
      NoReceipt(log, e.sessionId, id);
    }
  }

  /** The row an event makes by itself; text rows may merge and change rows appear once. */
  function RowOf(index: Index, e: Event): Option<Item> {
    match e.event
    case TurnChanges(id, _) =>
      if id in index.changes then Some(EventItem(e.seqNo, index.changes[id], false, Unanswered, Undecided)) else None
    case Usage => None
    case Progress => None
    case Subagent => None
    case QueuedMessageSent(text, id) =>
      var key := (e.sessionId, id);
      if key in index.receipts && index.receipts[key].1 == e.seqNo then
        Some(UserItem(e.seqNo, text, e.at, true, false))
      else None
    case User(_, _) => Some(UserRow(index, e))
    case Text(text) => Some(AssistantItem(e.seqNo, text))
    case Question(_, _) => Some(QuestionRow(index, e))
    case Approval(_, _) => Some(ApprovalRow(index, e))
    case State(_, message) => if message != "" then Some(EventRow(e)) else None
    case ApprovalResolved(_, _) => None
    case QuestionResolved(_, _) => None
    case _ => Some(EventRow(e))
  }

  datatype Draft = Draft(items: seq<Item>, rendered: set<string>)

  function Append(items: seq<Item>, row: Item): seq<Item> {
    var n := |items| - 1;
    if row.AssistantItem? && n >= 0 && items[n].AssistantItem? then
      items[..n] + [AssistantItem(items[n].key, items[n].text + row.text)]
    else items + [row]
  }

  function Add(index: Index, draft: Draft, e: Event): Draft {
    if e.event.TurnChanges? && e.event.requestId in draft.rendered then draft
    else
      match RowOf(index, e)
      case None => draft
      case Some(row) =>
        Draft(Append(draft.items, row),
              if e.event.TurnChanges? then draft.rendered + {e.event.requestId} else draft.rendered)
  }

  function Build(index: Index, events: seq<Event>): Draft {
    if events == [] then Draft([], {})
    else Add(index, Build(index, events[..|events| - 1]), events[|events| - 1])
  }

  /** Change rows without files are dropped at the end, after they have separated the text around them. */
  predicate Kept(item: Item) {
    !(item.EventItem? && item.value.TurnChanges? && item.value.entries == 0)
  }

  function KeepRows(items: seq<Item>): seq<Item> {
    if items == [] then []
    else KeepRows(items[..|items| - 1]) + (if Kept(items[|items| - 1]) then [items[|items| - 1]] else [])
  }

  function Transcript(events: seq<Event>, receipts: Receipts): seq<Item> {
    KeepRows(Build(IndexOf(events, receipts), events).items)
  }

  // ---------------------------------------------------------------- keys grow

  ghost predicate IncreaseUpTo(items: seq<Item>, last: int) {
    KeysIncrease(items) && forall item | item in items :: item.key <= last
  }

  lemma AddIncreases(index: Index, draft: Draft, last: int, e: Event)
    requires IncreaseUpTo(draft.items, last) && last < e.seqNo
    ensures IncreaseUpTo(Add(index, draft, e).items, e.seqNo)
  {
  }

  lemma BuildGrows(index: Index, events: seq<Event>, e: Event)
    ensures Build(index, events + [e]) == Add(index, Build(index, events), e)
  {
    assert (events + [e])[..|events|] == events;
  }

  lemma {:induction false} BuildIncreases(index: Index, events: seq<Event>, n: nat)
    requires EventsIncrease(events) && n <= |events|
    ensures IncreaseUpTo(Build(index, events[..n]).items, if n == 0 then 0 else events[n - 1].seqNo)
  {
    if n == 1 {
      assert events[..1] == [] + [events[0]];
      BuildGrows(index, [], events[0]);
      AddIncreases(index, Draft([], {}), events[0].seqNo - 1, events[0]);
    } else if n > 1 {
      BuildIncreases(index, events, n - 1);
      AddIncreases(index, Build(index, events[..n - 1]), events[n - 2].seqNo, events[n - 1]);
      BuildGrows(index, events[..n - 1], events[n - 1]);
      assert events[..n] == events[..n - 1] + [events[n - 1]];
    }
  }

  lemma {:induction false} KeepRowsIncreases(items: seq<Item>)
    requires KeysIncrease(items)
    ensures KeysIncrease(KeepRows(items))
    ensures forall item | item in KeepRows(items) :: item in items
  {
    if items != [] {
      var n := |items| - 1;
      KeepRowsIncreases(items[..n]);
      forall item | item in KeepRows(items[..n]) ensures item.key < items[n].key {
        assert item in items[..n];
      }
    }
  }

  /** Events in order give rows with strictly growing keys. */
  lemma TranscriptIncreases(events: seq<Event>, receipts: Receipts)
    requires EventsIncrease(events)
    ensures KeysIncrease(Transcript(events, receipts))
  {
    BuildIncreases(IndexOf(events, receipts), events, |events|);
    assert events[..|events|] == events;
    KeepRowsIncreases(Build(IndexOf(events, receipts), events).items);
  }

  // ---------------------------------------------------------------- nothing is lost

  /** Events that must each keep a row of their own. */
  predicate Stands(kind: EventKind) {
    kind.ToolCall? || kind.ToolResult? || kind.User? || kind.Question? || kind.Approval? || kind.Notice?
  }

  function StandingEvents(index: Index, events: seq<Event>): seq<Item> {
    if events == [] then []
    else
      var n := |events| - 1;
      StandingEvents(index, events[..n])
      + (if Stands(events[n].event) then [RowOf(index, events[n]).value] else [])
  }

  predicate StandingItem(item: Item) {
    (item.UserItem? && !item.handoff) || (item.EventItem? && Stands(item.value))
  }

  function StandingItems(items: seq<Item>): seq<Item> {
    if items == [] then []
    else StandingItems(items[..|items| - 1]) + (if StandingItem(items[|items| - 1]) then [items[|items| - 1]] else [])
  }

  lemma StandingSnoc(items: seq<Item>, row: Item)
    ensures StandingItems(items + [row]) == StandingItems(items) + (if StandingItem(row) then [row] else [])
  {
    assert (items + [row])[..|items|] == items;
  }

  lemma StandingAppend(items: seq<Item>, row: Item)
    ensures StandingItems(Append(items, row)) == StandingItems(items) + (if StandingItem(row) then [row] else [])
  {
    var n := |items| - 1;
    if row.AssistantItem? && n >= 0 && items[n].AssistantItem? {
      assert items == items[..n] + [items[n]];
      StandingSnoc(items[..n], AssistantItem(items[n].key, items[n].text + row.text));
    } else {
      StandingSnoc(items, row);
    }
  }

  lemma AddKeepsStanding(index: Index, draft: Draft, e: Event)
    requires forall id | id in index.changes :: index.changes[id].TurnChanges?
    ensures Stands(e.event) ==> RowOf(index, e).Some?
    ensures StandingItems(Add(index, draft, e).items)
            == StandingItems(draft.items) + (if Stands(e.event) then [RowOf(index, e).value] else [])
  {
    var row := RowOf(index, e);
    if row.Some? && !(e.event.TurnChanges? && e.event.requestId in draft.rendered) {
      StandingAppend(draft.items, row.value);
      assert StandingItem(row.value) == Stands(e.event);
    }
  }

  lemma {:induction false} BuildKeepsStanding(index: Index, events: seq<Event>)
    requires forall id | id in index.changes :: index.changes[id].TurnChanges?
    ensures StandingItems(Build(index, events).items) == StandingEvents(index, events)
  {
    if events != [] {
      var n := |events| - 1;
      BuildKeepsStanding(index, events[..n]);
      AddKeepsStanding(index, Build(index, events[..n]), events[n]);
    }
  }

  lemma {:induction false} KeepRowsKeepsStanding(items: seq<Item>)
    ensures StandingItems(KeepRows(items)) == StandingItems(items)
  {
    if items != [] {
      var front, last := items[..|items| - 1], items[|items| - 1];
      KeepRowsKeepsStanding(front);
      if Kept(last) {
        StandingSnoc(KeepRows(front), last);
      } else {
        assert KeepRows(items) == KeepRows(front) + [] == KeepRows(front);
      }
    }
  }

  /** Calls, results, questions, approvals, notices and messages each keep exactly one row, in order. */
  lemma StandingRowsSurvive(events: seq<Event>, receipts: Receipts)
    ensures StandingItems(Transcript(events, receipts)) == StandingEvents(IndexOf(events, receipts), events)
  {
    var index := IndexOf(events, receipts);
    BuildKeepsStanding(index, events);
    KeepRowsKeepsStanding(Build(index, events).items);
  }

  function Prose(events: seq<Event>): string {
    if events == [] then ""
    else
      var n := |events| - 1;
      Prose(events[..n]) + (if events[n].event.Text? then events[n].event.text else "")
  }

  function ShownProse(items: seq<Item>): string {
    if items == [] then ""
    else
      ShownProse(items[..|items| - 1])
      + (if items[|items| - 1].AssistantItem? then items[|items| - 1].text else "")
  }

  lemma ShownProseSnoc(items: seq<Item>, row: Item)
    ensures ShownProse(items + [row]) == ShownProse(items) + (if row.AssistantItem? then row.text else "")
  {
    assert (items + [row])[..|items|] == items;
  }

  lemma ShownProseAppend(items: seq<Item>, row: Item)
    ensures ShownProse(Append(items, row)) == ShownProse(items) + (if row.AssistantItem? then row.text else "")
  {
    var n := |items| - 1;
    if row.AssistantItem? && n >= 0 && items[n].AssistantItem? {
      assert items == items[..n] + [items[n]];
      ShownProseSnoc(items[..n], AssistantItem(items[n].key, items[n].text + row.text));
      ShownProseSnoc(items[..n], items[n]);
    } else {
      ShownProseSnoc(items, row);
    }
  }

  lemma AddKeepsProse(index: Index, draft: Draft, e: Event)
    requires forall id | id in index.changes :: index.changes[id].TurnChanges?
    ensures ShownProse(Add(index, draft, e).items)
            == ShownProse(draft.items) + (if e.event.Text? then e.event.text else "")
  {
    var row := RowOf(index, e);
    if row.Some? && !(e.event.TurnChanges? && e.event.requestId in draft.rendered) {
      ShownProseAppend(draft.items, row.value);
    }
  }

  lemma ProseGrows(events: seq<Event>, e: Event)
    ensures Prose(events + [e]) == Prose(events) + (if e.event.Text? then e.event.text else "")
  {
    assert (events + [e])[..|events|] == events;
  }

  ghost predicate KeepsProse(index: Index, events: seq<Event>) {
    ShownProse(Build(index, events).items) == Prose(events)
  }

  lemma ProseStep(index: Index, events: seq<Event>, e: Event)
    requires forall id | id in index.changes :: index.changes[id].TurnChanges?
    requires KeepsProse(index, events)
    ensures KeepsProse(index, events + [e])
  {
    BuildGrows(index, events, e);
    ProseGrows(events, e);
    AddKeepsProse(index, Build(index, events), e);
  }

  lemma {:induction false} BuildKeepsProse(index: Index, events: seq<Event>, n: nat)
    requires forall id | id in index.changes :: index.changes[id].TurnChanges?
    requires n <= |events|
    ensures KeepsProse(index, events[..n])
  {
    if n > 0 {
      BuildKeepsProse(index, events, n - 1);
      ProseStep(index, events[..n - 1], events[n - 1]);
      assert events[..n] == events[..n - 1] + [events[n - 1]];
    }
  }

  lemma {:induction false} KeepRowsKeepsProse(items: seq<Item>)
    ensures ShownProse(KeepRows(items)) == ShownProse(items)
  {
    if items != [] {
      var n := |items| - 1;
      KeepRowsKeepsProse(items[..n]);
      ShownProseSnoc(KeepRows(items[..n]), items[n]);
      assert !Kept(items[n]) ==> KeepRows(items) == KeepRows(items[..n]);
    }
  }

  /** However text is split over events and rows, the prose shown is the prose received. */
  lemma ProseSurvives(events: seq<Event>, receipts: Receipts)
    ensures ShownProse(Transcript(events, receipts)) == Prose(events)
  {
    var index := IndexOf(events, receipts);
    BuildKeepsProse(index, events, |events|);
    assert events[..|events|] == events;
    KeepRowsKeepsProse(Build(index, events).items);
  }

  // ---------------------------------------------------------------- the loop

  /** The rows in one pass over the log, with the last row and the rendered set updated in place. */
  method ProjectEvents(events: seq<Event>, receipts: Receipts) returns (items: seq<Item>)
    ensures items == Transcript(events, receipts)
  {
    var index := IndexOf(events, receipts);
    var built: seq<Item>, rendered: set<string> := [], {};
    for i := 0 to |events|
      invariant Build(index, events[..i]) == Draft(built, rendered)
    {
      var e := events[i];
      assert events[..i + 1][..i] == events[..i];
      if e.event.TurnChanges? {
        var id := e.event.requestId;
        if id !in rendered {
          built := Append(built, EventItem(e.seqNo, index.changes[id], false, Unanswered, Undecided));
          rendered := rendered + {id};
        }
      } else {
        var row := RowOf(index, e);
        if row.Some? {
          built := Append(built, row.value);
        }
      }
    }
    assert events[..|events|] == events;
    items := [];
    for i := 0 to |built|
      invariant items == KeepRows(built[..i])
    {
      assert built[..i + 1][..i] == built[..i];
      if Kept(built[i]) {
        items := items + [built[i]];
      }
    }
    assert built[..|built|] == built;
  }
}
