/**
 * The activity pass as it runs: tool rows are objects that later events change in place, and the pending
 * map, the unfinished set and the row list share them. It is proved against the functions of Projection
 * and Grouping.
 */
module ActivityTranscript {
  import opened Options
  import opened Protocol
  import Projection
  import Grouping

  class ToolActivity {
    const key: nat
    const name: string
    const input: Option<JsonValue>
    var output: Option<JsonValue>
    var status: Projection.ToolStatus

    constructor (
      key: nat, name: string, input: Option<JsonValue>, output: Option<JsonValue>, status: Projection.ToolStatus)
      ensures Value() == Projection.Tool(key, name, input, output, status)
    {
      this.key, this.name, this.input, this.output, this.status := key, name, input, output, status;
    }

    function Value(): Projection.Tool
      reads this
    {
      Projection.Tool(key, name, input, output, status)
    }

    method Close()
      modifies this`status
      ensures Value() == Projection.CloseTool(old(Value()))
    {
      if status == Projection.Pending {
        status := Projection.Unconfirmed;
      }
    }
  }

  datatype LiveRow =
    | ToolRow(tool: ToolActivity)
    | ImagesRow(after: nat, images: seq<Projection.Image>)
    | ItemRow(item: Item)
    | ApprovalRow(item: Item, approvalTool: ToolActivity)

  /** Position of a shared object in creation order. */
  ghost predicate IsTool(tools: seq<ToolActivity>, tool: ToolActivity, t: nat) {
    t < |tools| && tools[t] == tool
  }

  ghost predicate SameRow(tools: seq<ToolActivity>, live: LiveRow, row: Projection.Row) {
    match live
    case ToolRow(tool) => row.ToolRow? && IsTool(tools, tool, row.tool)
    case ImagesRow(after, images) => row == Projection.ImagesRow(after, images)
    case ItemRow(item) => row == Projection.ItemRow(item)
    case ApprovalRow(item, tool) => row.ApprovalRow? && row.item == item && IsTool(tools, tool, row.approvalTool)
  }

  ghost predicate SameSet(tools: seq<ToolActivity>, live: set<ToolActivity>, positions: set<nat>) {
    && (forall t | 0 <= t < |tools| :: tools[t] in live <==> t in positions)
    && (forall o | o in live :: o in tools)
    && (forall t | t in positions :: t < |tools|)
  }

  ghost predicate SameMap(tools: seq<ToolActivity>, live: map<string, ToolActivity>, positions: map<string, nat>) {
    && live.Keys == positions.Keys
    && forall id | id in live :: IsTool(tools, live[id], positions[id])
  }

  lemma SameSetWithout(tools: seq<ToolActivity>, live: set<ToolActivity>, positions: set<nat>, t: nat)
    requires SameSet(tools, live, positions) && t < |tools|
    requires forall i, j | 0 <= i < j < |tools| :: tools[i] != tools[j]
    ensures SameSet(tools, live - {tools[t]}, positions - {t})
    ensures SameSet(tools, live + {tools[t]}, positions + {t})
  {
  }

  lemma RunOn(terminal: seq<nat>, st: Projection.Projection, items: seq<Item>, i: nat)
    requires i < |items|
    ensures Projection.Run(terminal, st, items[i..])
            == Projection.Run(terminal, Projection.Step(terminal, st, items[i]), items[i + 1..])
  {
    assert items[i..][1..] == items[i + 1..];
  }

  class ActivityPass {
    var rows: seq<LiveRow>
    var attached: set<ToolActivity>
    var pending: map<string, ToolActivity>
    var unfinished: set<ToolActivity>
    var terminalIndex: nat
    ghost var tools: seq<ToolActivity>
    ghost var st: Projection.Projection

    ghost predicate Linked()
      reads this
    {
      && |tools| == |st.tools|
      && (forall i, j | 0 <= i < j < |tools| :: tools[i] != tools[j])
      && SameSet(tools, unfinished, st.unfinished)
      && SameSet(tools, attached, st.attached)
      && SameMap(tools, pending, st.pending)
      && |rows| == |st.rows|
      && (forall i | 0 <= i < |rows| :: SameRow(tools, rows[i], st.rows[i]))
      && terminalIndex == st.terminalIndex
    }

    ghost predicate Valid()
      reads this, tools
    {
      Linked() && forall t | 0 <= t < |tools| :: tools[t].Value() == st.tools[t]
    }

    constructor ()
      ensures Valid() && st == Projection.EMPTY && tools == []
    {
      rows, attached, pending, unfinished, terminalIndex := [], {}, map[], {}, 0;
      tools, st := [], Projection.EMPTY;
    }

    method Finish()
      requires Valid()
      modifies this, tools
      ensures Valid() && tools == old(tools) && st == Projection.Finish(old(st))
    {
      var todo := unfinished;
      while todo != {}
        invariant Linked() && tools == old(tools) && st == old(st) && todo <= unfinished
        invariant forall t | 0 <= t < |tools| ::
                    tools[t].Value() == (if t in st.unfinished && tools[t] !in todo
                                         then Projection.CloseTool(st.tools[t]) else st.tools[t])
      {
        var tool :| tool in todo;
        todo := todo - {tool};
        tool.Close();
      }
      unfinished, pending := {}, map[];
      st := Projection.Finish(st);
    }

    /** Appends a row that refers to no new object. */
    method PushRow(live: LiveRow, ghost row: Projection.Row)
      requires Valid() && SameRow(tools, live, row)
      modifies this
      ensures Valid() && tools == old(tools) && st == old(st).(rows := old(st.rows) + [row])
    {
      rows := rows + [live];
      st := st.(rows := st.rows + [row]);
    }

    /** Appends a new object and its row. */
    method PushTool(tool: ToolActivity)
      requires Valid() && tool !in tools
      modifies this
      ensures Valid() && tools == old(tools) + [tool]
      ensures st == old(st).(rows := old(st.rows) + [Projection.ToolRow(|old(st.tools)|)],
                             tools := old(st.tools) + [tool.Value()])
    {
      rows := rows + [ToolRow(tool)];
      tools := tools + [tool];
      st := st.(rows := st.rows + [Projection.ToolRow(|st.tools|)], tools := st.tools + [tool.Value()]);
    }

    /** Marks a new call as unfinished, and as pending under its id if it has one. */
    method Track(tool: ToolActivity, id: string, ghost t: nat)
      requires Valid() && IsTool(tools, tool, t)
      modifies this
      ensures Valid() && tools == old(tools)
      ensures st == old(st).(unfinished := old(st.unfinished) + {t},
                             pending := if id != "" then old(st.pending)[id := t] else old(st.pending))
    {
      SameSetWithout(tools, unfinished, st.unfinished, t);
      unfinished := unfinished + {tool};
      if id != "" {
        pending := pending[id := tool];
        st := st.(pending := st.pending[id := t]);
      }
      st := st.(unfinished := st.unfinished + {t});
    }

    method AddTool(key: nat, id: string, name: string, input: JsonValue)
      requires Valid() && Projection.Valid(st)
      modifies this
      ensures Valid() && fresh(set o | o in tools && o !in old(tools))
      ensures st == Projection.AddTool(old(st), key, id, name, input)
    {
      var tool := new ToolActivity(key, name, Some(input), None, Projection.Pending);
      PushTool(tool);
      Track(tool, id, |tools| - 1);
    }

    method SetOutcome(ghost t: nat, tool: ToolActivity, content: JsonValue, isError: bool)
      requires Valid() && IsTool(tools, tool, t)
      modifies this`st, tool
      ensures Valid()
      ensures var was := old(st.tools[t]);
        st == old(st).(tools := old(st.tools)[t := was.(
                         output := Some(content), status := Projection.ResultStatus(was.status, isError))])
    {
      tool.output := Some(content);
      if tool.status != Projection.Denied {
        tool.status := if isError then Projection.Failed else Projection.Completed;
      }
      st := st.(tools := st.tools[t := tool.Value()]);
    }

    method Release(id: string)
      requires Valid() && id in pending
      modifies this
      ensures Valid() && tools == old(tools)
      ensures st == old(st).(pending := old(st.pending) - {id},
                             unfinished := old(st.unfinished) - {old(st.pending[id])})
    {
      var tool := pending[id];
      ghost var t := st.pending[id];
      SameSetWithout(tools, unfinished, st.unfinished, t);
      pending := pending - {id};
      unfinished := unfinished - {tool};
      st := st.(pending := st.pending - {id}, unfinished := st.unfinished - {t});
    }

    method AddResult(id: string, content: JsonValue, isError: bool, key: nat)
      requires Valid() && Projection.Valid(st)
      modifies this, tools
      ensures Valid() && fresh(set o | o in tools && o !in old(tools))
      ensures st == Projection.AddResult(old(st), id, content, isError, key)
    {
      if id != "" && id in pending {
        SetOutcome(st.pending[id], pending[id], content, isError);
        Release(id);
      } else {
        var tool := new ToolActivity(
          key, Projection.ORPHAN_NAME, None, Some(content),
          if isError then Projection.Failed else Projection.Completed);
        PushTool(tool);
      }
    }

    method AddImages(key: nat, images: seq<Projection.Image>)
      requires Valid()
      modifies this
      ensures Valid() && tools == old(tools) && st == Projection.AddImages(old(st), key, images)
    {
      if images != [] {
        PushRow(ImagesRow(key, images), Projection.ImagesRow(key, images));
      }
    }

    method PlaceResult(key: nat, id: string, content: JsonValue, isError: bool)
      requires Valid() && Projection.Valid(st)
      modifies this, tools
      ensures Valid() && fresh(set o | o in tools && o !in old(tools))
      ensures st == Projection.AddImages(
                      Projection.AddResult(old(st), id, Projection.OutputContent(content), isError, key),
                      key, Projection.OutputImages(content))
    {
      AddResult(id, Projection.OutputContent(content), isError, key);
      AddImages(key, Projection.OutputImages(content));
    }

    method SetStatus(ghost t: nat, tool: ToolActivity, status: Projection.ToolStatus)
      requires Valid() && IsTool(tools, tool, t)
      modifies this`st, tool
      ensures Valid() && st == old(st).(tools := old(st.tools)[t := old(st.tools[t]).(status := status)])
    {
      tool.status := status;
      st := st.(tools := st.tools[t := tool.Value()]);
    }

    method Attach(ghost t: nat, tool: ToolActivity)
      requires Valid() && IsTool(tools, tool, t)
      modifies this`st, this`attached
      ensures Valid() && st == old(st).(attached := old(st.attached) + {t})
    {
      SameSetWithout(tools, attached, st.attached, t);
      attached := attached + {tool};
      st := st.(attached := st.attached + {t});
    }

    method AttachTool(id: string, item: Item)
      requires Valid() && id in pending && item.EventItem?
      modifies this, tools
      ensures Valid() && tools == old(tools)
      ensures var before, t := old(st), old(st.pending[id]);
        st == before.(attached := before.attached + {t},
                      rows := before.rows + [Projection.ApprovalRow(item, t)],
                      tools := before.tools[t := before.tools[t].(status := Projection.DecisionStatus(item))])
    {
      var tool := pending[id];
      ghost var t := st.pending[id];
      Attach(t, tool);
      PushRow(ApprovalRow(item, tool), Projection.ApprovalRow(item, t));
      SetStatus(t, tool, Projection.DecisionStatus(item));
    }

    method AddAsk(item: Item)
      requires Valid() && Projection.Valid(st) && item.EventItem?
      modifies this, tools
      ensures Valid() && tools == old(tools)
      ensures st == Projection.AddAsk(old(st), item)
    {
      var id := Projection.AskedTool(item);
      if id != "" && id in pending {
        AttachTool(id, item);
      } else {
        PushRow(ItemRow(item), Projection.ItemRow(item));
      }
    }

    method Place(item: Item)
      requires Valid() && Projection.Valid(st)
      modifies this, tools
      ensures Valid() && fresh(set o | o in tools && o !in old(tools))
      ensures st == Projection.Place(old(st), item)
    {
      if !item.EventItem? {
        PushRow(ItemRow(item), Projection.ItemRow(item));
        return;
      }
      match item.value
      case ToolCall(id, name, input) =>
        AddTool(item.key, id, name, input);
      case ToolResult(id, content, isError) =>
        PlaceResult(item.key, id, content, isError);
      case _ =>
        AddAsk(item);
    }

    method PassTerminal()
      requires Valid()
      modifies this, tools
      ensures Valid() && tools == old(tools)
      ensures st == Projection.Finish(old(st)).(terminalIndex := old(st).terminalIndex + 1)
    {
      Finish();
      terminalIndex := terminalIndex + 1;
      st := st.(terminalIndex := st.terminalIndex + 1);
    }

    /** Passes the next terminal state on the way to `key`. */
    method PassNext(terminal: seq<nat>, key: nat, ghost before: Projection.Projection)
      requires Valid() && Projection.Passing(terminal, key, before, st)
      requires terminalIndex < |terminal| && terminal[terminalIndex] <= key
      modifies this, tools
      ensures Valid() && tools == old(tools) && terminalIndex == old(terminalIndex) + 1
      ensures Projection.Passing(terminal, key, before, st)
    {
      Projection.PassOne(terminal, key, before, st);
      PassTerminal();
    }

    /** Closes the open calls once for every terminal state up to `key`. */
    method PassTerminals(terminal: seq<nat>, key: nat)
      requires Valid()
      modifies this, tools
      ensures Valid() && tools == old(tools)
      ensures st == Projection.Passed(old(st), Projection.SkipTerminals(terminal, old(st.terminalIndex), key))
    {
      ghost var before := st;
      while terminalIndex < |terminal| && terminal[terminalIndex] <= key
        invariant Valid() && tools == old(tools)
        invariant Projection.Passing(terminal, key, before, st)
        decreases |terminal| - terminalIndex
      {
        PassNext(terminal, key, before);
      }
      Projection.PassedAll(terminal, key, before, st);
    }

    method Step(terminal: seq<nat>, item: Item)
      requires Valid() && Projection.Valid(st)
      modifies this, tools
      ensures Valid() && Projection.Valid(st) && fresh(set o | o in tools && o !in old(tools))
      ensures st == Projection.Step(terminal, old(st), item)
    {
      PassTerminals(terminal, item.key);
      if item.UserItem? && !item.handoff {
        Projection.FinishTwice(old(st), st);
        Finish();
      }
      Projection.OpenKeepsValid(terminal, old(st), item);
      Projection.StepKeepsValid(terminal, old(st), item);
      Place(item);
    }

    /** The items one after another. */
    method Run(terminal: seq<nat>, items: seq<Item>)
      requires Valid() && Projection.Valid(st)
      modifies this, tools
      ensures Valid() && fresh(set o | o in tools && o !in old(tools))
      ensures st == Projection.Run(terminal, old(st), items)
    {
      ghost var end := Projection.Run(terminal, st, items);
      for i := 0 to |items|
        invariant Valid() && Projection.Valid(st) && fresh(set o | o in tools && o !in old(tools))
        invariant Projection.Run(terminal, st, items[i..]) == end
      {
        RunOn(terminal, st, items, i);
        Step(terminal, items[i]);
      }
    }
  }

  // ---------------------------------------------------------------- the displayed list

  datatype LiveActivity =
    | Images(after: nat, images: seq<Projection.Image>)
    | Plain(item: Item)
    | Asked(item: Item, approvalTool: ToolActivity)
    | Single(tool: ToolActivity)
    | Group(key: nat, tools: seq<ToolActivity>)
  {
    ghost function Objects(): set<ToolActivity> {
      match this
      case Asked(_, tool) => {tool}
      case Single(tool) => {tool}
      case Group(_, tools) => set o | o in tools
      case _ => {}
    }

    /** The row as it reads now. */
    ghost predicate Shows(row: Grouping.Activity)
      reads Objects()
    {
      match this
      case Images(after, images) => row == Grouping.Images(after, images)
      case Plain(item) => row == Grouping.Plain(item)
      case Asked(item, tool) => row == Grouping.Asked(item, tool.Value())
      case Single(tool) => row == Grouping.Single(tool.Value())
      case Group(key, tools) =>
        row.Group? && row.key == key && |row.tools| == |tools|
        && forall i | 0 <= i < |tools| :: tools[i].Value() == row.tools[i]
    }
  }

  ghost predicate AllShow(live: seq<LiveActivity>, rows: seq<Grouping.Activity>)
    reads set l, o | l in live && o in l.Objects() :: o
  {
    |live| == |rows| && forall i | 0 <= i < |live| :: live[i].Shows(rows[i])
  }

  predicate IsQuiet(tool: ToolActivity)
    reads tool
  {
    Grouping.Quiet(tool.status)
  }

  /** Appends one row, or merges it with the last. */
  method Push(
    grouped: seq<LiveActivity>, live: LiveActivity, ghost rows: seq<Grouping.Activity>, ghost row: Grouping.Activity)
    returns (next: seq<LiveActivity>)
    requires AllShow(grouped, rows) && live.Shows(row)
    ensures AllShow(next, Grouping.Push(rows, row))
  {
    var n := |grouped| - 1;
    if live.Single? && IsQuiet(live.tool) && n >= 0 && grouped[n].Group? {
      next := grouped[..n] + [grouped[n].(tools := grouped[n].tools + [live.tool])];
    } else if live.Single? && IsQuiet(live.tool) && n >= 0 && grouped[n].Single? && IsQuiet(grouped[n].tool) {
      next := grouped[..n] + [Group(grouped[n].tool.key, [grouped[n].tool, live.tool])];
    } else {
      next := grouped + [live];
    }
  }

  /** Row `i` of the pass as a row of its own. */
  method RowAt(pass: ActivityPass, i: nat) returns (live: LiveActivity)
    requires pass.Valid() && Grouping.InRange(pass.st.rows, |pass.st.tools|) && i < |pass.rows|
    ensures live.Shows(Grouping.Resolve(pass.st.tools, pass.st.rows[i]))
  {
    match pass.rows[i]
    case ToolRow(tool) => live := Single(tool);
    case ImagesRow(after, images) => live := Images(after, images);
    case ItemRow(item) => live := Plain(item);
    case ApprovalRow(item, tool) => live := Asked(item, tool);
  }

  /** Adds row `i` to the rows grouped before it. */
  method GroupNext(pass: ActivityPass, i: nat, grouped: seq<LiveActivity>, ghost rows: seq<Grouping.Activity>)
    returns (next: seq<LiveActivity>)
    requires pass.Valid() && Grouping.InRange(pass.st.rows, |pass.st.tools|) && i < |pass.rows|
    requires AllShow(grouped, rows)
    ensures AllShow(next, Grouping.PushShown(pass.st.tools, pass.st.attached, rows, pass.st.rows[i]))
  {
    var row := pass.rows[i];
    if row.ToolRow? && row.tool in pass.attached {
      next := grouped;
    } else {
      var live := RowAt(pass, i);
      next := Push(grouped, live, rows, Grouping.Resolve(pass.st.tools, pass.st.rows[i]));
    }
  }

  method GroupRows(pass: ActivityPass) returns (grouped: seq<LiveActivity>)
    requires pass.Valid() && Grouping.InRange(pass.st.rows, |pass.st.tools|)
    ensures AllShow(grouped, Grouping.GroupRows(Grouping.Ungrouped(pass.st.rows, pass.st.tools, pass.st.attached)))
  {
    grouped := [];
    ghost var shown := [];
    for i := 0 to |pass.rows|
      invariant AllShow(grouped, shown)
      invariant Grouping.GroupsTo(pass.st.rows, pass.st.tools, pass.st.attached, i, shown)
    {
      grouped := GroupNext(pass, i, grouped, shown);
      shown := Grouping.GroupsOn(pass.st.rows, pass.st.tools, pass.st.attached, i, shown);
    }
    assert pass.st.rows[..|pass.st.rows|] == pass.st.rows;
  }

  /** The whole pass shows exactly what the functional projection computes. */
  method ActivityTranscript(terminal: seq<nat>, items: seq<Item>) returns (grouped: seq<LiveActivity>)
    ensures AllShow(grouped, Grouping.Display(terminal, items))
  {
    var pass := new ActivityPass();
    pass.Run(terminal, items);
    if pass.terminalIndex < |terminal| {
      pass.Finish();
    }
    Grouping.RunKeepsRange(terminal, Projection.EMPTY, items);
    grouped := GroupRows(pass);
  }
}
