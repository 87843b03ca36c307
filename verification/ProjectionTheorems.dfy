/** What the activity projection promises about whole logs. */
module ProjectionTheorems {
  import opened Options
  import opened Protocol
  import opened Projection
  import opened Sequences

  lemma {:induction false} RunAppend(terminal: seq<nat>, st: Projection, a: seq<Item>, b: seq<Item>)
    ensures Run(terminal, st, a + b) == Run(terminal, Run(terminal, st, a), b)
    decreases |a|
  {
    if a == [] {
      assert a + b == b;
    } else {
      assert (a + b)[1..] == a[1..] + b;
      RunAppend(terminal, Step(terminal, st, a[0]), a[1..], b);
    }
  }

  lemma RunSnoc(terminal: seq<nat>, items: seq<Item>, k: nat)
    requires k < |items|
    ensures Run(terminal, EMPTY, items[..k + 1]) == Step(terminal, Run(terminal, EMPTY, items[..k]), items[k])
  {
    assert items[..k + 1] == items[..k] + [items[k]];
    RunAppend(terminal, EMPTY, items[..k], [items[k]]);
    var next := Step(terminal, Run(terminal, EMPTY, items[..k]), items[k]);
    assert Run(terminal, next, []) == next;
  }

  // ---------------------------------------------------------------- each call lives its own life

  predicate IsCall(item: Item) {
    item.EventItem? && item.value.ToolCall?
  }

  function NewTool(item: Item): Tool
    requires IsCall(item)
  {
    Tool(item.key, item.value.name, Some(item.value.input), None, Pending)
  }

  /** The state in which item `k` is placed: its boundary has been handled already. */
  function Ready(terminal: seq<nat>, items: seq<Item>, k: nat): Projection
    requires k < |items|
  {
    Open(terminal, Run(terminal, EMPTY, items[..k]), items[k])
  }

  lemma RunSplits(terminal: seq<nat>, items: seq<Item>, k: nat)
    requires k < |items|
    ensures Run(terminal, EMPTY, items)
            == Run(terminal, Step(terminal, Run(terminal, EMPTY, items[..k]), items[k]), items[k + 1..])
  {
    RunSnoc(terminal, items, k);
    assert items == items[..k + 1] + items[k + 1..];
    RunAppend(terminal, EMPTY, items[..k + 1], items[k + 1..]);
  }

  lemma CallIsTracked(st: Projection, item: Item)
    requires Valid(st) && IsCall(item)
    ensures var next, t := Place(st, item), |st.tools|;
      && t in next.unfinished && |next.tools| == t + 1 && next.tools[t] == NewTool(item)
      && Owns(next, t, item.value.id) && Live(next, t, item.value.id) == (item.value.id != "")
      && next.terminalIndex == st.terminalIndex
  {
  }

  /**
   * Refinement: what the whole pass leaves of a call is its `Fate`, which reads only the items after it
   * and shares nothing with the other calls.
   */
  lemma CallFollowsFate(terminal: seq<nat>, items: seq<Item>, k: nat)
    requires k < |items| && IsCall(items[k])
    ensures var ready := Ready(terminal, items, k);
      var id := items[k].value.id;
      && |ready.tools| < |Project(terminal, items).tools|
      && Project(terminal, items).tools[|ready.tools|]
         == Fate(terminal, ready.terminalIndex, NewTool(items[k]), id, id != "", items[k + 1..])
  {
    var before := Run(terminal, EMPTY, items[..k]);
    RunKeepsValid(terminal, EMPTY, items[..k]);
    OpenKeepsValid(terminal, before, items[k]);
    StepKeepsValid(terminal, before, items[k]);
    var ready, id := Ready(terminal, items, k), items[k].value.id;
    CallIsTracked(ready, items[k]);
    RunSplits(terminal, items, k);
    RunFollowsFate(terminal, Step(terminal, before, items[k]), items[k + 1..], |ready.tools|, id);
  }

  // ---------------------------------------------------------------- a pending call is still open

  /** A call stays pending only if no boundary follows it, nor its result while its id is still its own. */
  lemma {:induction false} PendingFateIsOpen(
    terminal: seq<nat>, index: nat, tool: Tool, id: string, live: bool, items: seq<Item>)
    requires Fate(terminal, index, tool, id, live, items).status == Pending
    ensures index >= |terminal|
    ensures forall m | 0 <= m < |items| :: !EndsTurn(items[m])
    ensures forall m | 0 <= m < |items| && live && Answers(items[m], id) ::
              exists n :: 0 <= n < m && TakesId(items[n], id)
    decreases |items|
  {
    if items != [] {
      var rest := items[1..];
      var asked := live && Asks(items[0], id);
      var live' := live && (asked || !TakesId(items[0], id));
      var tool' := if asked then tool.(status := DecisionStatus(items[0])) else tool;
      PendingFateIsOpen(terminal, index, tool', id, live', rest);
      assert forall m | 1 <= m < |items| :: items[m] == rest[m - 1];
      forall m | 0 <= m < |items| && live && Answers(items[m], id)
        ensures exists n :: 0 <= n < m && TakesId(items[n], id)
      {
        if live' {
          var n :| 0 <= n < m - 1 && TakesId(rest[n], id);
          assert TakesId(items[n + 1], id);
        }
      }
    }
  }

  lemma AtMostOneTool(terminal: seq<nat>, st: Projection, item: Item)
    ensures |Open(terminal, st, item).tools| == |st.tools|
    ensures |st.tools| <= |Step(terminal, st, item).tools| <= |st.tools| + 1
    ensures |Step(terminal, st, item).tools| > |st.tools| ==>
              item.EventItem? && (item.value.ToolCall? || item.value.ToolResult?)
  {
  }

  /** The item that made each entry of the tool list. */
  lemma {:induction false} Origin(terminal: seq<nat>, items: seq<Item>, t: nat) returns (k: nat)
    requires t < |Run(terminal, EMPTY, items).tools|
    ensures k < |items| && |Ready(terminal, items, k).tools| == t < |Run(terminal, EMPTY, items[..k + 1]).tools|
    ensures items[k].EventItem? && (items[k].value.ToolCall? || items[k].value.ToolResult?)
    decreases |items|
  {
    assert items != [];
    var n := |items| - 1;
    if t < |Run(terminal, EMPTY, items[..n]).tools| {
      k := Origin(terminal, items[..n], t);
      assert items[..n][..k] == items[..k] && items[..n][..k + 1] == items[..k + 1];
    } else {
      k := n;
      assert items[..n + 1] == items;
      RunSnoc(terminal, items, n);
      AtMostOneTool(terminal, Run(terminal, EMPTY, items[..n]), items[n]);
    }
  }

  /** Every terminal state passed over so far is at or before an item already seen. */
  lemma {:induction false} TerminalsPassed(terminal: seq<nat>, items: seq<Item>, x: nat)
    requires x < Run(terminal, EMPTY, items).terminalIndex
    ensures x < |terminal|
    ensures exists m :: 0 <= m < |items| && terminal[x] <= items[m].key
    decreases |items|
  {
    if items != [] {
      var n := |items| - 1;
      RunSnoc(terminal, items, n);
      assert items[..n + 1] == items;
      var before := Run(terminal, EMPTY, items[..n]);
      if x < before.terminalIndex {
        TerminalsPassed(terminal, items[..n], x);
        var m :| 0 <= m < n && terminal[x] <= items[..n][m].key;
        assert terminal[x] <= items[m].key;
      } else {
        SkippedAreEarly(terminal, before.terminalIndex, items[n].key, x);
        assert terminal[x] <= items[n].key;
      }
    }
  }

  lemma {:induction false} SkippedAreEarly(terminal: seq<nat>, index: nat, key: nat, x: nat)
    requires index <= x < SkipTerminals(terminal, index, key)
    ensures x < |terminal| && terminal[x] <= key
    decreases |terminal| - index
  {
    if x > index {
      SkippedAreEarly(terminal, index + 1, key, x);
    }
  }

  /** Nothing after the call at `k` ends its turn or answers it. */
  ghost predicate StillOpen(terminal: seq<nat>, items: seq<Item>, k: nat)
    requires k < |items| && IsCall(items[k])
  {
    var id := items[k].value.id;
    && (forall x | 0 <= x < |terminal| :: terminal[x] <= items[k].key)
    && (forall m | k < m < |items| :: !EndsTurn(items[m]))
    && (forall m | k < m < |items| && Answers(items[m], id) :: exists n :: k < n < m && TakesId(items[n], id))
  }

  lemma OpenFromFate(terminal: seq<nat>, items: seq<Item>, k: nat, index: nat)
    requires k < |items| && IsCall(items[k])
    requires var id := items[k].value.id;
      Fate(terminal, index, NewTool(items[k]), id, id != "", items[k + 1..]).status == Pending
    ensures index >= |terminal|
    ensures forall m | k < m < |items| :: !EndsTurn(items[m])
    ensures var id := items[k].value.id;
      forall m | k < m < |items| && Answers(items[m], id) :: exists n :: k < n < m && TakesId(items[n], id)
  {
    var id, rest := items[k].value.id, items[k + 1..];
    PendingFateIsOpen(terminal, index, NewTool(items[k]), id, id != "", rest);
    assert forall m | k < m < |items| :: items[m] == rest[m - k - 1];
    forall m | k < m < |items| && Answers(items[m], id)
      ensures exists n :: k < n < m && TakesId(items[n], id)
    {
      var n :| 0 <= n < m - k - 1 && TakesId(rest[n], id);
      assert TakesId(items[n + k + 1], id);
    }
  }

  lemma PendingCallIsOpen(terminal: seq<nat>, items: seq<Item>, k: nat)
    requires KeysIncrease(items) && k < |items| && IsCall(items[k])
    requires var t := |Ready(terminal, items, k).tools|;
      t < |Project(terminal, items).tools| && Project(terminal, items).tools[t].status == Pending
    ensures StillOpen(terminal, items, k)
    ensures Project(terminal, items).tools[|Ready(terminal, items, k).tools|].key == items[k].key
  {
    CallFollowsFate(terminal, items, k);
    var ready, id := Ready(terminal, items, k), items[k].value.id;
    OpenFromFate(terminal, items, k, ready.terminalIndex);
    KeyOfFate(terminal, ready.terminalIndex, NewTool(items[k]), id, id != "", items[k + 1..]);
    RunSnoc(terminal, items, k);
    forall x | 0 <= x < |terminal| ensures terminal[x] <= items[k].key {
      TerminalsPassed(terminal, items[..k + 1], x);
    }
  }

  /** The row of a result that belongs to no call. */
  function LoneOutput(item: Item): Tool
    requires item.EventItem? && item.value.ToolResult?
  {
    Tool(item.key, "\U{5DE5}\U{5177}\U{8F93}\U{51FA}", None, Some(OutputContent(item.value.content)),
         if item.value.isError then Failed else Completed)
  }

  lemma OrphanIsPlaced(terminal: seq<nat>, st: Projection, item: Item)
    requires Valid(st) && item.EventItem? && item.value.ToolResult?
    requires |Step(terminal, st, item).tools| > |st.tools|
    ensures var next, t := Step(terminal, st, item), |st.tools|;
      Valid(next) && t !in next.unfinished && next.tools[t] == LoneOutput(item)
  {
    OpenKeepsValid(terminal, st, item);
    StepKeepsValid(terminal, st, item);
  }

  /** A result that found no call makes a row of its own, which is completed or failed, whatever follows. */
  lemma OrphanIsSettled(terminal: seq<nat>, items: seq<Item>, k: nat)
    requires k < |items| && items[k].EventItem? && items[k].value.ToolResult?
    requires |Ready(terminal, items, k).tools| < |Run(terminal, EMPTY, items[..k + 1]).tools|
    ensures var t := |Ready(terminal, items, k).tools|;
      t < |Project(terminal, items).tools|
      && Project(terminal, items).tools[t] == LoneOutput(items[k])
  {
    var before, rest := Run(terminal, EMPTY, items[..k]), items[k + 1..];
    RunKeepsValid(terminal, EMPTY, items[..k]);
    RunSnoc(terminal, items, k);
    assert items == items[..k + 1] + rest;
    RunAppend(terminal, EMPTY, items[..k + 1], rest);
    OrphanIsPlaced(terminal, before, items[k]);
    FrozenOnceFinished(terminal, Step(terminal, before, items[k]), rest, |Ready(terminal, items, k).tools|);
  }

  /**
   * A tool shown as pending comes from a call with no later terminal state, no later message from the
   * user other than a hand-off, and no later result of its own.
   */
  lemma PendingIsStillOpen(terminal: seq<nat>, items: seq<Item>, t: nat) returns (k: nat)
    requires KeysIncrease(items)
    requires t < |Project(terminal, items).tools| && Project(terminal, items).tools[t].status == Pending
    ensures k < |items| && IsCall(items[k]) && StillOpen(terminal, items, k)
    ensures Project(terminal, items).tools[t].key == items[k].key
  {
    k := Origin(terminal, items, t);
    if items[k].value.ToolResult? {
      OrphanIsSettled(terminal, items, k);
      assert false;
    }
    PendingCallIsOpen(terminal, items, k);
  }

  lemma {:induction false} KeyOfFate(
    terminal: seq<nat>, index: nat, tool: Tool, id: string, live: bool, items: seq<Item>)
    ensures var end := Fate(terminal, index, tool, id, live, items);
      end.key == tool.key && end.name == tool.name && end.input == tool.input
    decreases |items|
  {
    if items != [] && !Boundary(terminal, index, items[0]) {
      if live && Asks(items[0], id) {
        KeyOfFate(terminal, index, tool.(status := DecisionStatus(items[0])), id, live, items[1..]);
      } else {
        KeyOfFate(terminal, index, tool, id, live && !TakesId(items[0], id), items[1..]);
      }
    }
  }

  // ---------------------------------------------------------------- results are conserved

  function OutputOf(tool: Tool): multiset<JsonValue> {
    if tool.output.Some? then multiset{tool.output.value} else multiset{}
  }

  function OutputsOf(tools: seq<Tool>): (outputs: seq<multiset<JsonValue>>)
    ensures |outputs| == |tools| && forall i | 0 <= i < |tools| :: outputs[i] == OutputOf(tools[i])
  {
    seq(|tools|, i requires 0 <= i < |tools| => OutputOf(tools[i]))
  }

  function Outputs(tools: seq<Tool>): multiset<JsonValue> {
    SumTo(OutputsOf(tools), |tools|)
  }

  function ResultOf(item: Item): multiset<JsonValue> {
    if item.EventItem? && item.value.ToolResult? then multiset{OutputContent(item.value.content)} else multiset{}
  }

  function Results(items: seq<Item>): multiset<JsonValue> {
    if items == [] then multiset{} else ResultOf(items[0]) + Results(items[1..])
  }

  lemma OutputsUpdate(tools: seq<Tool>, t: nat, tool: Tool)
    requires t < |tools| && tools[t].output == None
    ensures Outputs(tools[t := tool]) == Outputs(tools) + OutputOf(tool)
  {
    assert OutputsOf(tools[t := tool]) == OutputsOf(tools)[t := OutputOf(tool)];
    SumAfterUpdate(OutputsOf(tools), t, OutputOf(tool), |tools|);
  }

  lemma OutputsSame(a: seq<Tool>, b: seq<Tool>)
    requires |a| == |b| && forall i | 0 <= i < |a| :: a[i].output == b[i].output
    ensures Outputs(a) == Outputs(b)
  {
    SameSums(OutputsOf(a), OutputsOf(b), |a|);
  }

  lemma OutputsSnoc(tools: seq<Tool>, tool: Tool)
    ensures Outputs(tools + [tool]) == Outputs(tools) + OutputOf(tool)
  {
    SameSums(OutputsOf(tools + [tool]), OutputsOf(tools), |tools|);
  }

  ghost predicate NoOutputYet(st: Projection) {
    forall t | t in st.unfinished && t < |st.tools| :: st.tools[t].output == None
  }

  lemma OpenConserves(terminal: seq<nat>, st: Projection, item: Item)
    requires NoOutputYet(st)
    ensures NoOutputYet(Open(terminal, st, item)) && Outputs(Open(terminal, st, item).tools) == Outputs(st.tools)
  {
    OutputsSame(Open(terminal, st, item).tools, st.tools);
  }

  lemma ResultConserves(st: Projection, id: string, content: JsonValue, isError: bool, key: nat)
    requires Valid(st) && NoOutputYet(st)
    ensures var next := AddResult(st, id, content, isError, key);
      NoOutputYet(next) && Outputs(next.tools) == Outputs(st.tools) + multiset{content}
  {
    var next := AddResult(st, id, content, isError, key);
    if id != "" && id in st.pending {
      OutputsUpdate(st.tools, st.pending[id], next.tools[st.pending[id]]);
    } else {
      OutputsSnoc(st.tools, next.tools[|st.tools|]);
    }
  }

  lemma CallConserves(st: Projection, item: Item)
    requires Valid(st) && NoOutputYet(st) && IsCall(item)
    ensures NoOutputYet(Place(st, item)) && Outputs(Place(st, item).tools) == Outputs(st.tools)
  {
    OutputsSnoc(st.tools, NewTool(item));
    assert Place(st, item).tools == st.tools + [NewTool(item)];
    assert OutputOf(NewTool(item)) == multiset{};
  }

  lemma OtherConserves(st: Projection, item: Item)
    requires Valid(st) && NoOutputYet(st) && !IsCall(item) && !(item.EventItem? && item.value.ToolResult?)
    ensures NoOutputYet(Place(st, item)) && Outputs(Place(st, item).tools) == Outputs(st.tools)
  {
    OutputsSame(Place(st, item).tools, st.tools);
  }

  lemma PlaceConserves(st: Projection, item: Item)
    requires Valid(st) && NoOutputYet(st)
    ensures NoOutputYet(Place(st, item)) && Outputs(Place(st, item).tools) == Outputs(st.tools) + ResultOf(item)
  {
    if item.EventItem? && item.value.ToolResult? {
      ResultConserves(st, item.value.id, OutputContent(item.value.content), item.value.isError, item.key);
    } else if IsCall(item) {
      CallConserves(st, item);
    } else {
      OtherConserves(st, item);
    }
  }

  lemma StepConserves(terminal: seq<nat>, st: Projection, item: Item)
    requires Valid(st) && NoOutputYet(st)
    ensures NoOutputYet(Step(terminal, st, item))
    ensures Outputs(Step(terminal, st, item).tools) == Outputs(st.tools) + ResultOf(item)
  {
    OpenKeepsValid(terminal, st, item);
    OpenConserves(terminal, st, item);
    PlaceConserves(Open(terminal, st, item), item);
  }

  lemma {:induction false} RunConserves(terminal: seq<nat>, st: Projection, items: seq<Item>)
    requires Valid(st) && NoOutputYet(st)
    ensures Outputs(Run(terminal, st, items).tools) == Outputs(st.tools) + Results(items)
    decreases |items|
  {
    if items != [] {
      StepConserves(terminal, st, items[0]);
      StepKeepsValid(terminal, st, items[0]);
      RunConserves(terminal, Step(terminal, st, items[0]), items[1..]);
    }
  }

  lemma CloseConserves(terminal: seq<nat>, st: Projection)
    ensures Outputs(Close(terminal, st).tools) == Outputs(st.tools)
  {
    OutputsSame(Close(terminal, st).tools, st.tools);
  }

  /** Every result of the log is held by exactly one tool row, and tools hold nothing else. */
  lemma ResultsAreConserved(terminal: seq<nat>, items: seq<Item>)
    ensures Outputs(Project(terminal, items).tools) == Results(items)
  {
    RunConserves(terminal, EMPTY, items);
    CloseConserves(terminal, Run(terminal, EMPTY, items));
  }

  // ---------------------------------------------------------------- arrival order does not matter

  predicate MatchesPending(st: Projection, item: Item) {
    item.EventItem? && item.value.ToolResult? && item.value.id != "" && item.value.id in st.pending
    && OutputImages(item.value.content) == []
  }

  /** The item that carries what `item` carries but stands where `place` stood. */
  function At(item: Item, place: Item): Item
    requires item.EventItem?
  {
    item.(key := place.key)
  }

  /** The state once a result without images has met the call that waits for it. */
  function Matched(st: Projection, item: Item): Projection
    requires MatchesPending(st, item) && st.pending[item.value.id] < |st.tools|
  {
    var t := st.pending[item.value.id];
    st.(tools := st.tools[t := Answer(st.tools[t], item)],
        pending := st.pending - {item.value.id},
        unfinished := st.unfinished - {t})
  }

  lemma MatchedIs(st: Projection, item: Item)
    requires MatchesPending(st, item) && st.pending[item.value.id] < |st.tools|
    ensures Place(st, item) == Matched(st, item)
  {
  }

  lemma ResultsCommute(st: Projection, a: Item, b: Item, a': Item, b': Item)
    requires Valid(st) && MatchesPending(st, a) && MatchesPending(st, b)
    requires a.value.id != b.value.id
    requires a' == At(a, b) && b' == At(b, a)
    ensures Place(Place(st, a), b) == Place(Place(st, b'), a')
  {
    MatchedIs(st, a);
    MatchedIs(st, b');
    MatchedIs(Matched(st, a), b);
    MatchedIs(Matched(st, b'), a');
    var l, r := Matched(Matched(st, a), b), Matched(Matched(st, b'), a');
    assert l.tools == r.tools;
    assert l.pending == r.pending;
    assert l.unfinished == r.unfinished;
  }

  lemma RunTwo(terminal: seq<nat>, st: Projection, a: Item, b: Item)
    ensures Run(terminal, st, [a, b]) == Step(terminal, Step(terminal, st, a), b)
  {
    assert [a, b][1..] == [b];
    assert Run(terminal, Step(terminal, st, a), [b]) == Run(terminal, Step(terminal, Step(terminal, st, a), b), []);
  }

  lemma RunAround(terminal: seq<nat>, front: seq<Item>, a: Item, b: Item, back: seq<Item>)
    ensures Run(terminal, EMPTY, front + [a, b] + back)
            == Run(terminal, Step(terminal, Step(terminal, Run(terminal, EMPTY, front), a), b), back)
  {
    RunAppend(terminal, EMPTY, front + [a, b], back);
    RunAppend(terminal, EMPTY, front, [a, b]);
    RunTwo(terminal, Run(terminal, EMPTY, front), a, b);
  }

  lemma StepsCommute(terminal: seq<nat>, st: Projection, a: Item, b: Item, a': Item, b': Item)
    requires var ready := Open(terminal, st, a);
      Valid(ready) && MatchesPending(ready, a) && MatchesPending(ready, b)
      && !Boundary(terminal, ready.terminalIndex, b)
    requires a.value.id != b.value.id
    requires a' == At(a, b) && b' == At(b, a)
    ensures Step(terminal, Step(terminal, st, a), b) == Step(terminal, Step(terminal, st, b'), a')
  {
    var ready := Open(terminal, st, a);
    ResultsCommute(ready, a, b, a', b');
    assert Open(terminal, st, b') == ready;
    assert Open(terminal, Place(ready, a), b) == Place(ready, a);
    assert Open(terminal, Place(ready, b'), a') == Place(ready, b');
  }

  lemma SwapInside(terminal: seq<nat>, front: seq<Item>, a: Item, b: Item, a': Item, b': Item, back: seq<Item>)
    requires var st := Run(terminal, EMPTY, front);
      Step(terminal, Step(terminal, st, a), b) == Step(terminal, Step(terminal, st, b'), a')
    ensures Project(terminal, front + [a, b] + back) == Project(terminal, front + [b', a'] + back)
  {
    RunAround(terminal, front, a, b, back);
    RunAround(terminal, front, b', a', back);
  }

  lemma AroundPair(items: seq<Item>, k: nat, x: Item, y: Item)
    requires k + 1 < |items|
    ensures items == items[..k] + [items[k], items[k + 1]] + items[k + 2..]
    ensures items[k := x][k + 1 := y] == items[..k] + [x, y] + items[k + 2..]
  {
  }

  /**
   * Two neighbouring results for different pending calls may arrive in either order: the output is the
   * same, as long as no turn boundary lies between them and neither carries images.
   */
  lemma ArrivalOrderIsIrrelevant(terminal: seq<nat>, items: seq<Item>, k: nat)
    requires k + 1 < |items|
    requires MatchesPending(Ready(terminal, items, k), items[k])
    requires MatchesPending(Ready(terminal, items, k), items[k + 1])
    requires items[k].value.id != items[k + 1].value.id
    requires !Boundary(terminal, Ready(terminal, items, k).terminalIndex, items[k + 1])
    ensures var swapped := items[k := At(items[k + 1], items[k])][k + 1 := At(items[k], items[k + 1])];
      Project(terminal, swapped) == Project(terminal, items)
  {
    var a, b, front, back := items[k], items[k + 1], items[..k], items[k + 2..];
    var b', a' := At(b, a), At(a, b);
    RunKeepsValid(terminal, EMPTY, front);
    OpenKeepsValid(terminal, Run(terminal, EMPTY, front), a);
    StepsCommute(terminal, Run(terminal, EMPTY, front), a, b, a', b');
    AroundPair(items, k, b', a');
    SwapInside(terminal, front, a, b, a', b', back);
  }
}
