/**
 * How every tool call ends: from the last question put about the call in its window, from whether its result
 * came there, and from whether its turn was closed. The window starts at the terminal state that the pass has
 * reached; OpenCalls says the same without the pass.
 */
module CallOutcome {
  import opened Options
  import opened Protocol
  import opened Projection
  import ProjectionTheorems

  // ---------------------------------------------------------------- what an ask says

  predicate Refuses(ask: Item) {
    ask.EventItem? && if ask.value.Question? then ask.resolved && ask.answers == Declined else ask.decision == Refused
  }

  /** Nobody has decided yet. */
  predicate Waits(ask: Item) {
    ask.EventItem? && if ask.value.Question? then !ask.resolved else ask.decision == Undecided
  }

  /** The turn ended before anybody decided. */
  predicate Lapses(ask: Item) {
    ask.EventItem? && if ask.value.Question? then ask.resolved && ask.answers == Unanswered else ask.decision == Lapsed
  }

  predicate Grants(ask: Item) {
    ask.EventItem? && if ask.value.Question? then ask.resolved && ask.answers.Answered? else ask.decision == Allowed
  }

  // ---------------------------------------------------------------- the window of a call

  /** After this item nothing can be put to, or answer, the call with this id any more. */
  predicate Stops(terminal: seq<nat>, index: nat, id: string, item: Item) {
    Boundary(terminal, index, item) || Answers(item, id) || TakesId(item, id)
  }

  /** The first `n` items do not stop the call, and the next one does. */
  ghost predicate IsWindow(terminal: seq<nat>, index: nat, id: string, items: seq<Item>, n: nat) {
    && n <= |items|
    && (forall m | 0 <= m < n :: !Stops(terminal, index, id, items[m]))
    && (n < |items| ==> Stops(terminal, index, id, items[n]))
  }

  lemma {:induction false} WindowExists(terminal: seq<nat>, index: nat, id: string, items: seq<Item>) returns (n: nat)
    ensures IsWindow(terminal, index, id, items, n)
  {
    if items == [] || Stops(terminal, index, id, items[0]) {
      n := 0;
    } else {
      var m := WindowExists(terminal, index, id, items[1..]);
      n := m + 1;
      assert forall j | 1 <= j < |items| :: items[j] == items[1..][j - 1];
    }
  }

  /** The last approval or question about the call. */
  function LastAsk(items: seq<Item>, id: string): (ask: Option<Item>)
    ensures ask.Some? ==> Asks(ask.value, id)
  {
    if items == [] then None
    else if Asks(items[|items| - 1], id) then Some(items[|items| - 1])
    else LastAsk(items[..|items| - 1], id)
  }

  lemma {:induction false} LastAskIsThere(items: seq<Item>, id: string)
    requires LastAsk(items, id).Some?
    ensures LastAsk(items, id).value in items
  {
    if !Asks(items[|items| - 1], id) {
      LastAskIsThere(items[..|items| - 1], id);
    }
  }

  lemma {:induction false} LastAskCons(item: Item, rest: seq<Item>, id: string)
    ensures LastAsk([item] + rest, id)
            == if LastAsk(rest, id).Some? then LastAsk(rest, id) else if Asks(item, id) then Some(item) else None
    decreases |rest|
  {
    var all := [item] + rest;
    if rest == [] {
      assert all[..0] == [] && all[|all| - 1] == item;
      assert LastAsk(all[..0], id) == None;
    } else {
      LastAskCons(item, rest[..|rest| - 1], id);
      assert all[..|all| - 1] == [item] + rest[..|rest| - 1];
    }
  }

  ghost predicate Closed(terminal: seq<nat>, index: nat, items: seq<Item>) {
    index < |terminal| || exists m :: 0 <= m < |items| && Boundary(terminal, index, items[m])
  }

  lemma ClosedLater(terminal: seq<nat>, index: nat, items: seq<Item>)
    requires items != [] && !Boundary(terminal, index, items[0])
    ensures Closed(terminal, index, items) <==> Closed(terminal, index, items[1..])
  {
    assert forall m | 1 <= m < |items| :: items[m] == items[1..][m - 1];
  }

  /** A call whose id was taken over only waits for its turn to close. */
  lemma {:induction false} LostCallCloses(terminal: seq<nat>, index: nat, tool: Tool, id: string, items: seq<Item>)
    ensures Fate(terminal, index, tool, id, false, items)
            == if Closed(terminal, index, items) then CloseTool(tool) else tool
    decreases |items|
  {
    if items != [] {
      if !Boundary(terminal, index, items[0]) {
        ClosedLater(terminal, index, items);
        LostCallCloses(terminal, index, tool, id, items[1..]);
      }
    }
  }

  // ---------------------------------------------------------------- the table

  /** The status before the window ends, from the last ask in it. */
  ghost predicate Standing(status: ToolStatus, ask: Option<Item>) {
    match status
    case Pending => ask == None || Grants(ask.value)
    case Waiting => ask.Some? && Waits(ask.value)
    case Denied => ask.Some? && Refuses(ask.value)
    case Expired => ask.Some? && Lapses(ask.value)
    case _ => false
  }

  lemma AskStanding(ask: Item, id: string)
    requires Asks(ask, id)
    ensures Standing(DecisionStatus(ask), Some(ask))
  {
  }

  ghost predicate IsAnswered(terminal: seq<nat>, index: nat, id: string, items: seq<Item>, n: nat) {
    n < |items| && !Boundary(terminal, index, items[n]) && Answers(items[n], id)
  }

  /** One row per status; `open` is the call as its first tool event made it. */
  ghost predicate EndsAs(open: Tool, ask: Option<Item>, answer: Option<Item>, closed: bool, end: Tool)
    requires answer.Some? ==> answer.value.EventItem? && answer.value.value.ToolResult?
  {
    var refused := ask.Some? && Refuses(ask.value);
    var granted := ask == None || Grants(ask.value);
    && end.key == open.key && end.name == open.name && end.input == open.input
    && end.output == (if answer.Some? then Some(OutputContent(answer.value.value.content)) else open.output)
    && (end.status == Denied <==> refused)
    && (end.status == Failed <==> answer.Some? && !refused && answer.value.value.isError)
    && (end.status == Completed <==> answer.Some? && !refused && !answer.value.value.isError)
    && (end.status == Waiting <==> answer == None && ask.Some? && Waits(ask.value))
    && (end.status == Expired <==> answer == None && ask.Some? && Lapses(ask.value))
    && (end.status == Pending <==> answer == None && granted && !closed)
    && (end.status == Unconfirmed <==> answer == None && granted && closed)
  }

  function AnswerAt(items: seq<Item>, id: string, n: nat): (answer: Option<Item>)
    ensures answer.Some? ==> Answers(answer.value, id)
  {
    if n < |items| && Answers(items[n], id) then Some(items[n]) else None
  }

  lemma FateAtStop(
    terminal: seq<nat>, index: nat, open: Tool, ask: Option<Item>, tool: Tool, id: string, items: seq<Item>)
    requires tool == open.(status := tool.status) && Standing(tool.status, ask)
    requires IsWindow(terminal, index, id, items, 0)
    ensures var answer := if IsAnswered(terminal, index, id, items, 0) then AnswerAt(items, id, 0) else None;
      EndsAs(open, ask, answer, Closed(terminal, index, items), Fate(terminal, index, tool, id, true, items))
  {
    if items != [] && !Boundary(terminal, index, items[0]) && TakesId(items[0], id) {
      ClosedLater(terminal, index, items);
      LostCallCloses(terminal, index, tool, id, items[1..]);
    }
  }

  ghost predicate FateEnds(
    terminal: seq<nat>, index: nat, open: Tool, ask: Option<Item>, tool: Tool, id: string, items: seq<Item>, n: nat)
  {
    var answer := if IsAnswered(terminal, index, id, items, n) then AnswerAt(items, id, n) else None;
    EndsAs(open, ask, answer, Closed(terminal, index, items), Fate(terminal, index, tool, id, true, items))
  }

  lemma FateGoesOn(
    terminal: seq<nat>, index: nat, open: Tool, ask: Option<Item>, tool: Tool, id: string, items: seq<Item>, n: nat)
    requires items != [] && id != "" && !Stops(terminal, index, id, items[0])
    requires var next := if Asks(items[0], id) then tool.(status := DecisionStatus(items[0])) else tool;
      FateEnds(terminal, index, open, ask, next, id, items[1..], n)
    ensures FateEnds(terminal, index, open, ask, tool, id, items, n + 1)
  {
    ClosedLater(terminal, index, items);
  }

  /** `before` is the last ask put before `items`. */
  lemma {:induction false} FateByWindow(
    terminal: seq<nat>, index: nat, open: Tool, before: Option<Item>, tool: Tool, id: string, items: seq<Item>, n: nat)
    requires id != "" && tool == open.(status := tool.status) && Standing(tool.status, before)
    requires IsWindow(terminal, index, id, items, n)
    ensures var ask := LastAsk(items[..n], id);
      FateEnds(terminal, index, open, if ask.Some? then ask else before, tool, id, items, n)
    decreases n
  {
    if n == 0 {
      FateAtStop(terminal, index, open, before, tool, id, items);
    } else {
      var item, rest := items[0], items[1..];
      assert forall m | 0 <= m < |rest| :: rest[m] == items[m + 1];
      LastAskCons(item, rest[..n - 1], id);
      assert items[..n] == [item] + rest[..n - 1];
      if Asks(item, id) {
        AskStanding(item, id);
        FateByWindow(terminal, index, open, Some(item), tool.(status := DecisionStatus(item)), id, rest, n - 1);
      } else {
        FateByWindow(terminal, index, open, before, tool, id, rest, n - 1);
      }
      var ask := LastAsk(items[..n], id);
      FateGoesOn(terminal, index, open, if ask.Some? then ask else before, tool, id, items, n - 1);
    }
  }

  /**
   * How the call at `k` ends in the output of the whole pass. Its window reaches to its result, to the next
   * call under its id, or to the end of its turn; the last approval or question about it in the window and
   * the result at the end of the window decide its status and its output.
   */
  lemma CallEnds(terminal: seq<nat>, items: seq<Item>, k: nat) returns (n: nat)
    requires k < |items| && ProjectionTheorems.IsCall(items[k]) && items[k].value.id != ""
    ensures var ready, id, rest := ProjectionTheorems.Ready(terminal, items, k), items[k].value.id, items[k + 1..];
      var index := ready.terminalIndex;
      && IsWindow(terminal, index, id, rest, n)
      && |ready.tools| < |Project(terminal, items).tools|
      && EndsAs(ProjectionTheorems.NewTool(items[k]), LastAsk(rest[..n], id),
                if IsAnswered(terminal, index, id, rest, n) then AnswerAt(rest, id, n) else None,
                Closed(terminal, index, rest), Project(terminal, items).tools[|ready.tools|])
  {
    var index, id := ProjectionTheorems.Ready(terminal, items, k).terminalIndex, items[k].value.id;
    var open := ProjectionTheorems.NewTool(items[k]);
    ProjectionTheorems.CallFollowsFate(terminal, items, k);
    n := WindowExists(terminal, index, id, items[k + 1..]);
    FateByWindow(terminal, index, open, None, open, id, items[k + 1..], n);
  }

  /** A call without an id cannot be answered or asked about: it completes only by its turn closing. */
  lemma NamelessCallEnds(terminal: seq<nat>, items: seq<Item>, k: nat)
    requires k < |items| && ProjectionTheorems.IsCall(items[k]) && items[k].value.id == ""
    ensures var ready, open := ProjectionTheorems.Ready(terminal, items, k), ProjectionTheorems.NewTool(items[k]);
      && |ready.tools| < |Project(terminal, items).tools|
      && Project(terminal, items).tools[|ready.tools|]
         == if Closed(terminal, ready.terminalIndex, items[k + 1..]) then open.(status := Unconfirmed) else open
  {
    ProjectionTheorems.CallFollowsFate(terminal, items, k);
    LostCallCloses(terminal, ProjectionTheorems.Ready(terminal, items, k).terminalIndex,
                   ProjectionTheorems.NewTool(items[k]), "", items[k + 1..]);
  }

  /** A tool shown as waiting is a call that a later item asks about and that nobody has decided. */
  lemma WaitingIsAsked(terminal: seq<nat>, items: seq<Item>, t: nat) returns (k: nat, m: nat)
    requires t < |Project(terminal, items).tools| && Project(terminal, items).tools[t].status == Waiting
    ensures k < m < |items| && ProjectionTheorems.IsCall(items[k])
    ensures Asks(items[m], items[k].value.id) && Waits(items[m])
    ensures Project(terminal, items).tools[t].key == items[k].key
  {
    k := ProjectionTheorems.Origin(terminal, items, t);
    if items[k].value.ToolResult? {
      ProjectionTheorems.OrphanIsSettled(terminal, items, k);
      assert false;
    }
    var id, rest := items[k].value.id, items[k + 1..];
    if id == "" {
      NamelessCallEnds(terminal, items, k);
      assert false;
    }
    var n := CallEnds(terminal, items, k);
    LastAskIsThere(rest[..n], id);
    var x :| 0 <= x < n && rest[..n][x] == LastAsk(rest[..n], id).value;
    m := k + 1 + x;
  }
}
