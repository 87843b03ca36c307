/**
 * What a log decides about its approvals and questions, and through them about its calls, read off the events:
 * the last decision under an id counts, and a state that ends the turn lets an open ask lapse.
 */
module AskDecisions {
  import opened Options
  import opened Protocol
  import Transcript
  import Projection
  import CallOutcome
  import ProjectionTheorems
  import opened OpenCalls
  import opened TurnTheorems
  import opened ConfirmedTurns
  import opened TurnBarriers

  // ---------------------------------------------------------------- the last decision

  /** Event `k` is the last decision of the approval with this id. */
  ghost predicate IsLastDecision(events: seq<Event>, k: nat, id: string) {
    && k < |events| && events[k].event.ApprovalResolved? && events[k].event.requestId == id
    && forall j | k < j < |events| :: !(events[j].event.ApprovalResolved? && events[j].event.requestId == id)
  }

  /** Event `k` is the last answer of the question with this id. */
  ghost predicate IsLastReply(events: seq<Event>, k: nat, id: string) {
    && k < |events| && events[k].event.QuestionResolved? && events[k].event.requestId == id
    && forall j | k < j < |events| :: !(events[j].event.QuestionResolved? && events[j].event.requestId == id)
  }

  lemma {:induction false} LastDecisionIs(events: seq<Event>, k: nat, id: string)
    requires IsLastDecision(events, k, id)
    ensures id in Transcript.Decisions(events) && Transcript.Decisions(events)[id] == events[k].event.allow
    decreases |events|
  {
    var n := |events| - 1;
    if k < n {
      LastDecisionIs(events[..n], k, id);
    }
  }

  lemma {:induction false} LastReplyIs(events: seq<Event>, k: nat, id: string)
    requires IsLastReply(events, k, id)
    ensures id in Transcript.Replies(events) && Transcript.Replies(events)[id] == events[k].event.reply
    decreases |events|
  {
    var n := |events| - 1;
    if k < n {
      LastReplyIs(events[..n], k, id);
    }
  }

  lemma {:induction false} LastDecisionAt(events: seq<Event>, id: string) returns (k: nat)
    requires id in Transcript.Decisions(events)
    ensures IsLastDecision(events, k, id)
    decreases |events|
  {
    var n := |events| - 1;
    if events[n].event.ApprovalResolved? && events[n].event.requestId == id {
      k := n;
    } else {
      k := LastDecisionAt(events[..n], id);
    }
  }

  lemma {:induction false} LastReplyAt(events: seq<Event>, id: string) returns (k: nat)
    requires id in Transcript.Replies(events)
    ensures IsLastReply(events, k, id)
    decreases |events|
  {
    var n := |events| - 1;
    if events[n].event.QuestionResolved? && events[n].event.requestId == id {
      k := n;
    } else {
      k := LastReplyAt(events[..n], id);
    }
  }

  /** The last decision of the approval with this id is `allow`. */
  ghost predicate Decided(events: seq<Event>, id: string, allow: bool) {
    exists k: nat :: IsLastDecision(events, k, id) && events[k].event.allow == allow
  }

  ghost predicate Replied(events: seq<Event>, id: string, reply: QuestionReply) {
    exists k: nat :: IsLastReply(events, k, id) && events[k].event.reply == reply
  }

  lemma DecidedIff(events: seq<Event>, id: string, allow: bool)
    ensures Decided(events, id, allow)
            <==> id in Transcript.Decisions(events) && Transcript.Decisions(events)[id] == allow
  {
    if k: nat :| IsLastDecision(events, k, id) && events[k].event.allow == allow {
      LastDecisionIs(events, k, id);
    }
    if id in Transcript.Decisions(events) {
      var k := LastDecisionAt(events, id);
      LastDecisionIs(events, k, id);
    }
  }

  lemma RepliedIff(events: seq<Event>, id: string, reply: QuestionReply)
    ensures Replied(events, id, reply) <==> id in Transcript.Replies(events) && Transcript.Replies(events)[id] == reply
  {
    if k: nat :| IsLastReply(events, k, id) && events[k].event.reply == reply {
      LastReplyIs(events, k, id);
    }
    if id in Transcript.Replies(events) {
      var k := LastReplyAt(events, id);
      LastReplyIs(events, k, id);
    }
  }

  /** A state that ends the turn comes after the event. */
  ghost predicate EndsAfter(events: seq<Event>, e: Event) {
    exists x :: x in events && x.seqNo > e.seqNo && x.event.State?
                && x.event.status != Running && x.event.status != WaitingForUser
  }

  lemma EndedAfterIff(events: seq<Event>, receipts: Transcript.Receipts, e: Event)
    ensures Transcript.EndedAfter(Transcript.IndexOf(events, receipts), e.seqNo) <==> EndsAfter(events, e)
  {
    var terminal := Transcript.Terminals(events);
    if t :| t in terminal && t > e.seqNo {
      var x := TerminalEvent(events, t);
    }
    if x :| x in events && x.seqNo > e.seqNo && x.event.State?
            && x.event.status != Running && x.event.status != WaitingForUser {
      assert x.seqNo in terminal;
    }
  }

  // ---------------------------------------------------------------- what is shown of an ask

  /** The row of an approval shows the last decision under its id, or that the turn ended without one. */
  ghost predicate ShowsApproval(events: seq<Event>, e: Event, row: Item)
    requires e.event.Approval?
  {
    var id := e.event.requestId;
    && row.EventItem? && row.key == e.seqNo && row.value == e.event && row.answers == Unanswered
    && (row.decision == Allowed <==> Decided(events, id, true))
    && (row.decision == Refused <==> Decided(events, id, false))
    && (row.decision == Lapsed
        <==> !Decided(events, id, true) && !Decided(events, id, false) && EndsAfter(events, e))
    && (row.resolved <==> Decided(events, id, true) || Decided(events, id, false) || EndsAfter(events, e))
  }

  /** The row of a question shows the last answer under its id; without one it is resolved when the turn ends. */
  ghost predicate ShowsQuestion(events: seq<Event>, e: Event, row: Item)
    requires e.event.Question?
  {
    var id := e.event.requestId;
    && row.EventItem? && row.key == e.seqNo && row.value == e.event && row.decision == Undecided
    && (forall reply | Replied(events, id, reply) :: row.answers == reply)
    && (row.answers != Unanswered ==> Replied(events, id, row.answers))
    && (row.resolved <==> (exists reply :: Replied(events, id, reply)) || EndsAfter(events, e))
  }

  lemma ApprovalRowShows(events: seq<Event>, receipts: Transcript.Receipts, e: Event)
    requires e.event.Approval?
    ensures ShowsApproval(events, e, Transcript.ApprovalRow(Transcript.IndexOf(events, receipts), e))
  {
    DecidedIff(events, e.event.requestId, true);
    DecidedIff(events, e.event.requestId, false);
    EndedAfterIff(events, receipts, e);
  }

  lemma QuestionRowShows(events: seq<Event>, receipts: Transcript.Receipts, e: Event)
    requires e.event.Question?
    ensures ShowsQuestion(events, e, Transcript.QuestionRow(Transcript.IndexOf(events, receipts), e))
  {
    forall reply: QuestionReply
      ensures Replied(events, e.event.requestId, reply)
              <==> e.event.requestId in Transcript.Replies(events)
                   && Transcript.Replies(events)[e.event.requestId] == reply
    {
      RepliedIff(events, e.event.requestId, reply);
    }
    EndedAfterIff(events, receipts, e);
  }

  ghost predicate ShowsAsk(events: seq<Event>, e: Event, row: Item)
    requires IsAskEvent(e)
  {
    if e.event.Approval? then ShowsApproval(events, e, row) else ShowsQuestion(events, e, row)
  }

  /** Every approval and every question of a log has one row, which shows what the log decides about it. */
  lemma AskIsShownAs(events: seq<Event>, receipts: Transcript.Receipts, e: Event) returns (m: nat)
    requires Transcript.EventsIncrease(events) && e in events && IsAskEvent(e)
    ensures m < |TurnItems(events, receipts)| && ShowsAsk(events, e, TurnItems(events, receipts)[m])
    ensures forall i | 0 <= i < |TurnItems(events, receipts)| && TurnItems(events, receipts)[i].key == e.seqNo :: i == m
  {
    var index := Transcript.IndexOf(events, receipts);
    var row := Transcript.RowOf(index, e).value;
    assert Makes(index, e, row);
    RowsAreEvents(events, receipts, row);
    m :| 0 <= m < |TurnItems(events, receipts)| && TurnItems(events, receipts)[m] == row;
    Transcript.TranscriptIncreases(events, receipts);
    if e.event.Approval? {
      ApprovalRowShows(events, receipts, e);
    } else {
      QuestionRowShows(events, receipts, e);
    }
  }

  // ---------------------------------------------------------------- what an ask says about its call

  ghost predicate RefusedBy(events: seq<Event>, a: Event)
    requires IsAskEvent(a)
  {
    if a.event.Approval? then Decided(events, a.event.requestId, false)
    else Replied(events, a.event.requestId, Declined)
  }

  /** It still waits: nothing decides it and its turn goes on. */
  ghost predicate WaitsFor(events: seq<Event>, a: Event)
    requires IsAskEvent(a)
  {
    && !EndsAfter(events, a)
    && if a.event.Approval? then !Decided(events, a.event.requestId, true) && !Decided(events, a.event.requestId, false)
       else forall reply :: !Replied(events, a.event.requestId, reply)
  }

  /** Its turn ended first; a question also lapses by an answer without content. */
  ghost predicate LapsedFor(events: seq<Event>, a: Event)
    requires IsAskEvent(a)
  {
    if a.event.Approval? then
      !Decided(events, a.event.requestId, true) && !Decided(events, a.event.requestId, false) && EndsAfter(events, a)
    else
      || Replied(events, a.event.requestId, Unanswered)
      || ((forall reply :: !Replied(events, a.event.requestId, reply)) && EndsAfter(events, a))
  }

  lemma ShownAskSays(events: seq<Event>, a: Event, row: Item)
    requires IsAskEvent(a) && ShowsAsk(events, a, row)
    ensures CallOutcome.Refuses(row) <==> RefusedBy(events, a)
    ensures CallOutcome.Waits(row) <==> WaitsFor(events, a)
    ensures CallOutcome.Lapses(row) <==> LapsedFor(events, a)
  {
  }

  // ---------------------------------------------------------------- the events about one call

  /** An approval or question about the call, put while the call was open. */
  ghost predicate AsksAbout(events: seq<Event>, c: Event, a: Event)
    requires c.event.ToolCall?
  {
    a in events && IsAskEvent(a) && a.event.toolUseId == c.event.id && IsOpenCall(events, c, c.event.id, a)
  }

  /** The last of them. */
  ghost predicate AsksLast(events: seq<Event>, c: Event, a: Event)
    requires c.event.ToolCall?
  {
    AsksAbout(events, c, a) && forall x | AsksAbout(events, c, x) :: x.seqNo <= a.seqNo
  }

  /** The result of the call: it comes while the call is open. */
  ghost predicate AnswersCall(events: seq<Event>, c: Event, r: Event)
    requires c.event.ToolCall?
  {
    r in events && r.event.ToolResult? && r.event.id == c.event.id && IsOpenCall(events, c, c.event.id, r)
  }

  /** A message or a state that ends the turn comes after the call. */
  ghost predicate TurnEnds(events: seq<Event>, c: Event) {
    EndsAfter(events, c) || exists x :: x in events && x.seqNo > c.seqNo && x.event.User?
  }

  /** The call event, its item, and where the item stops being open. */
  ghost predicate Stretch(events: seq<Event>, receipts: Transcript.Receipts, c: Event, k: nat, e: nat) {
    var terminal, items := Transcript.Terminals(events), TurnItems(events, receipts);
    && Transcript.EventsIncrease(events) && KeysIncrease(items)
    && c in events && c.event.ToolCall? && c.event.id != ""
    && k < |items| && items[k].EventItem? && items[k].value == c.event && items[k].key == c.seqNo
    && OpenUntil(terminal, items, k, c.event.id, e)
  }

  lemma HeldUpTo(terminal: seq<nat>, items: seq<Item>, k: nat, id: string, e: nat, m: nat)
    requires k < |items| && OpenUntil(terminal, items, k, id, e) && m <= |items| && HoldsId(terminal, items, k, m, id)
    ensures m <= e
  {
  }

  lemma NotStoppedBefore(terminal: seq<nat>, items: seq<Item>, k: nat, id: string, e: nat, m: nat)
    requires k < |items| && OpenUntil(terminal, items, k, id, e) && k < m < |items|
    requires StopsAt(terminal, items[k].key, id, items[m])
    ensures e <= m
  {
  }

  /** A result or an ask at `m` comes while the call is open exactly if it is at `e` at the latest. */
  lemma OpenIsBefore(
    events: seq<Event>, receipts: Transcript.Receipts, c: Event, k: nat, e: nat, m: nat, b: Event)
    requires Stretch(events, receipts, c, k, e) && At(events, receipts, m, b)
    ensures IsOpenCall(events, c, c.event.id, b)
            <==> k < m <= e && !EndsBy(Transcript.Terminals(events), TurnItems(events, receipts)[k].key,
                                       TurnItems(events, receipts)[m])
  {
    var terminal, items, id := Transcript.Terminals(events), TurnItems(events, receipts), c.event.id;
    if IsOpenCall(events, c, id, b) {
      OpenCallIsHeld(events, receipts, k, m, b, id, c);
      HeldUpTo(terminal, items, k, id, e, m);
    }
    if k < m <= e && !EndsBy(terminal, items[k].key, items[m]) {
      assert HoldsId(terminal, items, k, m, id);
      HeldCallIsOpen(events, receipts, k, m, b, id, c);
    }
  }

  /** An ask about the call comes while it is open exactly if its item comes before `e`. */
  lemma AskIsInside(
    events: seq<Event>, receipts: Transcript.Receipts, c: Event, k: nat, e: nat, m: nat, a: Event)
    requires Stretch(events, receipts, c, k, e) && At(events, receipts, m, a) && IsAskEvent(a)
    requires a.event.toolUseId == c.event.id
    ensures AsksAbout(events, c, a) <==> k < m < e
  {
    var terminal, items, id := Transcript.Terminals(events), TurnItems(events, receipts), c.event.id;
    OpenIsBefore(events, receipts, c, k, e, m, a);
    if k < m < e {
      assert !StopsAt(terminal, items[k].key, id, items[m]);
    }
  }

  lemma {:induction false} LastAskAt(items: seq<Item>, id: string) returns (x: nat)
    requires CallOutcome.LastAsk(items, id).Some?
    ensures x < |items| && CallOutcome.LastAsk(items, id) == Some(items[x])
    ensures forall y | x < y < |items| :: !Projection.Asks(items[y], id)
  {
    var n := |items| - 1;
    if Projection.Asks(items[n], id) {
      x := n;
    } else {
      x := LastAskAt(items[..n], id);
    }
  }

  lemma {:induction false} NoLastAsk(items: seq<Item>, id: string)
    requires CallOutcome.LastAsk(items, id).None?
    ensures forall y | 0 <= y < |items| :: !Projection.Asks(items[y], id)
  {
    if items != [] {
      NoLastAsk(items[..|items| - 1], id);
    }
  }

  lemma LastAskBetween(items: seq<Item>, k: nat, e: nat, id: string) returns (m: nat)
    requires k < e <= |items| && CallOutcome.LastAsk(items[k + 1..e], id).Some?
    ensures k < m < e && CallOutcome.LastAsk(items[k + 1..e], id) == Some(items[m])
    ensures forall j | m < j < e :: !Projection.Asks(items[j], id)
  {
    var x := LastAskAt(items[k + 1..e], id);
    m := k + 1 + x;
    forall j | m < j < e ensures !Projection.Asks(items[j], id) {
      assert items[k + 1..e][j - k - 1] == items[j];
    }
  }

  lemma NoAskBetween(items: seq<Item>, k: nat, e: nat, id: string)
    requires k < e <= |items| && CallOutcome.LastAsk(items[k + 1..e], id).None?
    ensures forall j | k < j < e :: !Projection.Asks(items[j], id)
  {
    NoLastAsk(items[k + 1..e], id);
    forall j | k < j < e ensures !Projection.Asks(items[j], id) {
      assert items[k + 1..e][j - k - 1] == items[j];
    }
  }

  /** The item of an ask. */
  lemma AskItem(events: seq<Event>, receipts: Transcript.Receipts, a: Event) returns (m: nat)
    requires Transcript.EventsIncrease(events) && a in events && IsAskEvent(a)
    ensures At(events, receipts, m, a) && ShowsAsk(events, a, TurnItems(events, receipts)[m])
  {
    m := AskIsShownAs(events, receipts, a);
    Transcript.TranscriptIncreases(events, receipts);
  }

  lemma LaterAskIsLast(
    events: seq<Event>, receipts: Transcript.Receipts, c: Event, k: nat, e: nat, m: nat, b: Event)
    requires Stretch(events, receipts, c, k, e) && AsksAbout(events, c, b) && k < m < e
    requires forall j | m < j < e :: !Projection.Asks(TurnItems(events, receipts)[j], c.event.id)
    ensures b.seqNo <= TurnItems(events, receipts)[m].key
  {
    var j := AskItem(events, receipts, b);
    AskIsInside(events, receipts, c, k, e, j, b);
  }

  /** The last ask among the items is that of the last ask event. */
  lemma LastAskIsEvent(events: seq<Event>, receipts: Transcript.Receipts, c: Event, k: nat, e: nat) returns (a: Event)
    requires Stretch(events, receipts, c, k, e)
    requires CallOutcome.LastAsk(TurnItems(events, receipts)[k + 1..e], c.event.id).Some?
    ensures AsksLast(events, c, a)
    ensures ShowsAsk(events, a, CallOutcome.LastAsk(TurnItems(events, receipts)[k + 1..e], c.event.id).value)
  {
    var items := TurnItems(events, receipts);
    var m := LastAskBetween(items, k, e, c.event.id);
    a := EventOf(events, receipts, items[m]);
    AskIsInside(events, receipts, c, k, e, m, a);
    var m' := AskItem(events, receipts, a);
    assert m' == m;
    forall b | AsksAbout(events, c, b) ensures b.seqNo <= a.seqNo {
      LaterAskIsLast(events, receipts, c, k, e, m, b);
    }
  }

  lemma NoAskEvent(events: seq<Event>, receipts: Transcript.Receipts, c: Event, k: nat, e: nat, b: Event)
    requires Stretch(events, receipts, c, k, e)
    requires CallOutcome.LastAsk(TurnItems(events, receipts)[k + 1..e], c.event.id).None?
    ensures !AsksAbout(events, c, b)
  {
    NoAskBetween(TurnItems(events, receipts), k, e, c.event.id);
    if AsksAbout(events, c, b) {
      var j := AskItem(events, receipts, b);
      AskIsInside(events, receipts, c, k, e, j, b);
    }
  }

  // ---------------------------------------------------------------- the result and the end of the turn

  lemma AnswerIsEvent(events: seq<Event>, receipts: Transcript.Receipts, c: Event, k: nat, e: nat) returns (r: Event)
    requires Stretch(events, receipts, c, k, e)
    requires AnswerOf(Transcript.Terminals(events), TurnItems(events, receipts), k, c.event.id, e).Some?
    ensures AnswersCall(events, c, r)
    ensures AnswerOf(Transcript.Terminals(events), TurnItems(events, receipts), k, c.event.id, e).value.value == r.event
  {
    r := EventOf(events, receipts, TurnItems(events, receipts)[e]);
    OpenIsBefore(events, receipts, c, k, e, e, r);
  }

  lemma AnswerIsThere(events: seq<Event>, receipts: Transcript.Receipts, c: Event, k: nat, e: nat, r: Event)
    requires Stretch(events, receipts, c, k, e) && AnswersCall(events, c, r)
    ensures var answer := AnswerOf(Transcript.Terminals(events), TurnItems(events, receipts), k, c.event.id, e);
      answer.Some? && answer.value.value == r.event
  {
    var terminal, items := Transcript.Terminals(events), TurnItems(events, receipts);
    var m := ItemOf(events, receipts, r);
    OpenIsBefore(events, receipts, c, k, e, m, r);
    NotStoppedBefore(terminal, items, k, c.event.id, e, m);
  }

  lemma TurnEndsIff(events: seq<Event>, receipts: Transcript.Receipts, c: Event, k: nat, e: nat)
    requires Stretch(events, receipts, c, k, e)
    ensures TurnCloses(Transcript.Terminals(events), TurnItems(events, receipts), k) <==> TurnEnds(events, c)
  {
    var terminal, items := Transcript.Terminals(events), TurnItems(events, receipts);
    EndedAfterIff(events, receipts, c);
    if m :| k < m < |items| && Projection.EndsTurn(items[m]) {
      var x := EventOf(events, receipts, items[m]);
    }
    if x :| x in events && x.seqNo > c.seqNo && x.event.User? {
      var m := ItemOf(events, receipts, x);
      assert k < m;
    }
  }

  // ---------------------------------------------------------------- the table

  /**
   * The tool that a call ends as: what it was called with, the result that came while it was open, and a status
   * decided by the last approval or question about it, by the result, and by the end of the turn.
   */
  ghost predicate ToolShows(events: seq<Event>, c: Event, tool: Projection.Tool)
    requires c.event.ToolCall?
  {
    var refused := exists a :: AsksLast(events, c, a) && RefusedBy(events, a);
    var waiting := exists a :: AsksLast(events, c, a) && WaitsFor(events, a);
    var lapsed := exists a :: AsksLast(events, c, a) && LapsedFor(events, a);
    var answered := exists r :: AnswersCall(events, c, r);
    && tool.key == c.seqNo && tool.name == c.event.name && tool.input == Some(c.event.input)
    && (tool.output.Some? <==> answered)
    && (forall r | AnswersCall(events, c, r) :: tool.output == Some(Projection.OutputContent(r.event.content)))
    && (tool.status == Projection.Denied <==> refused)
    && (tool.status == Projection.Failed
        <==> !refused && exists r :: AnswersCall(events, c, r) && r.event.isError)
    && (tool.status == Projection.Completed
        <==> !refused && exists r :: AnswersCall(events, c, r) && !r.event.isError)
    && (tool.status == Projection.Waiting <==> !answered && waiting)
    && (tool.status == Projection.Expired <==> !answered && lapsed)
    && (tool.status == Projection.Pending
        <==> !answered && !refused && !waiting && !lapsed && !TurnEnds(events, c))
    && (tool.status == Projection.Unconfirmed
        <==> !answered && !refused && !waiting && !lapsed && TurnEnds(events, c))
  }

  /** Two results cannot both come while the call is open, nor can two asks both be the last. */
  lemma AnswersAreOne(events: seq<Event>, c: Event, r: Event, x: Event)
    requires Transcript.EventsIncrease(events) && c.event.ToolCall? && c.event.id != ""
    requires AnswersCall(events, c, r) && AnswersCall(events, c, x)
    ensures r == x
  {
    if r.seqNo < x.seqNo {
      assert EndsCall(r, c.event.id);
    } else if x.seqNo < r.seqNo {
      assert EndsCall(x, c.event.id);
    } else {
      SameSeq(events, r, x);
    }
  }

  lemma LastAsksAreOne(events: seq<Event>, c: Event, a: Event, x: Event)
    requires Transcript.EventsIncrease(events) && c.event.ToolCall? && AsksLast(events, c, a) && AsksLast(events, c, x)
    ensures a == x
  {
    SameSeq(events, a, x);
  }

  /** The table of items, said of events. */
  lemma TableByEvents(
    events: seq<Event>, c: Event, open: Projection.Tool, asked: Option<Event>, ask: Option<Item>,
    answered: Option<Event>, answer: Option<Item>, closed: bool, tool: Projection.Tool)
    requires Transcript.EventsIncrease(events) && c.event.ToolCall? && c.event.id != ""
    requires open == Projection.Tool(c.seqNo, c.event.name, Some(c.event.input), None, Projection.Pending)
    requires asked.Some? == ask.Some? && answered.Some? == answer.Some? && (closed <==> TurnEnds(events, c))
    requires if asked.Some? then AsksLast(events, c, asked.value) && ShowsAsk(events, asked.value, ask.value)
             else forall a :: !AsksAbout(events, c, a)
    requires if answered.Some? then
               AnswersCall(events, c, answered.value) && answer.value.EventItem?
               && answer.value.value == answered.value.event
             else forall r :: !AnswersCall(events, c, r)
    requires CallOutcome.EndsAs(open, ask, answer, closed, tool)
    ensures ToolShows(events, c, tool)
  {
    if asked.Some? {
      ShownAskSays(events, asked.value, ask.value);
      forall x | AsksLast(events, c, x) ensures x == asked.value {
        LastAsksAreOne(events, c, asked.value, x);
      }
    }
    if answered.Some? {
      forall x | AnswersCall(events, c, x) ensures x == answered.value {
        AnswersAreOne(events, c, answered.value, x);
      }
    }
  }

  /**
   * End to end: how a call with an id is shown is decided by its events alone. A tool is denied exactly if the last
   * approval or question about the call, put while the call was open, was last decided against it.
   */
  lemma CallEndsByEvents(events: seq<Event>, receipts: Transcript.Receipts, c: Event) returns (t: nat)
    requires Transcript.EventsIncrease(events) && c in events && c.event.ToolCall? && c.event.id != ""
    ensures var tools := Projection.Project(Transcript.Terminals(events), TurnItems(events, receipts)).tools;
      t < |tools| && ToolShows(events, c, tools[t])
  {
    var terminal, items, id := Transcript.Terminals(events), TurnItems(events, receipts), c.event.id;
    Transcript.TranscriptIncreases(events, receipts);
    Transcript.TerminalsIncrease(events);
    var k := ItemOf(events, receipts, c);
    var e;
    e, t := CallEndsByLog(terminal, items, k);
    var ask, answer := CallOutcome.LastAsk(items[k + 1..e], id), AnswerOf(terminal, items, k, id, e);
    TurnEndsIff(events, receipts, c, k, e);
    var asked, answered := None, None;
    if ask.Some? {
      var a := LastAskIsEvent(events, receipts, c, k, e);
      asked := Some(a);
    } else {
      forall a ensures !AsksAbout(events, c, a) {
        NoAskEvent(events, receipts, c, k, e, a);
      }
    }
    if answer.Some? {
      var r := AnswerIsEvent(events, receipts, c, k, e);
      answered := Some(r);
    } else {
      forall r ensures !AnswersCall(events, c, r) {
        NoAnswerEvent(events, receipts, c, k, e, r);
      }
    }
    TableByEvents(events, c, ProjectionTheorems.NewTool(items[k]), asked, ask, answered, answer,
                  TurnCloses(terminal, items, k), Projection.Project(terminal, items).tools[t]);
  }

  lemma NoAnswerEvent(events: seq<Event>, receipts: Transcript.Receipts, c: Event, k: nat, e: nat, r: Event)
    requires Stretch(events, receipts, c, k, e)
    requires AnswerOf(Transcript.Terminals(events), TurnItems(events, receipts), k, c.event.id, e).None?
    ensures !AnswersCall(events, c, r)
  {
    if AnswersCall(events, c, r) {
      AnswerIsThere(events, receipts, c, k, e, r);
    }
  }
}
