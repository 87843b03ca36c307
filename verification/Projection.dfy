/**
 * The activity projection: tool calls are paired with their results by id, unfinished calls are closed
 * at turn boundaries, and approvals are attached to the call they ask about.
 *
 * A tool call is one mutable object in the program, shared between the row list, the pending map and the
 * unfinished set. Here it is a position in `tools`, so sharing is an index; ActivityTranscript.dfy proves
 * the in-place algorithm over real objects against these functions.
 */
module Projection {
  import opened Options
  import opened Protocol

  datatype Image = Image(mimeType: string, base64: string)

  datatype ToolStatus = Pending | Waiting | Denied | Expired | Completed | Failed | Unconfirmed

  datatype Tool = Tool(key: nat, name: string, input: Option<JsonValue>, output: Option<JsonValue>, status: ToolStatus)

  /** One ungrouped row; tools are references into the tool list. The key of an image row is `after` + 0.5. */
  datatype Row =
    | ToolRow(tool: nat)
    | ImagesRow(after: nat, images: seq<Image>)
    | ItemRow(item: Item)
    | ApprovalRow(item: Item, approvalTool: nat)

  datatype Projection = Projection(
    rows: seq<Row>,
    tools: seq<Tool>,
    attached: set<nat>,
    pending: map<string, nat>,
    unfinished: set<nat>,
    terminalIndex: nat)

  const EMPTY := Projection([], [], {}, map[], {}, 0)

  const ORPHAN_NAME := "\U{5DE5}\U{5177}\U{8F93}\U{51FA}"
  const IMAGE_TEXT := "[\U{56FE}\U{7247}]"
  const MAX_IMAGES := 4
  const MAX_IMAGE_CHARACTERS := 384 * 1024

  // ---------------------------------------------------------------- tool output

  predicate IsImageBlock(block: JsonValue) {
    block.JsonObject?
    && "type" in block.fields && block.fields["type"] == JsonString("image")
    && "data_base64" in block.fields
  }

  predicate IsShownImage(block: JsonValue, shown: nat) {
    IsImageBlock(block)
    && "mime_type" in block.fields && block.fields["mime_type"].JsonString?
    && block.fields["data_base64"].JsonString?
    && shown < MAX_IMAGES
    && |block.fields["data_base64"].text| <= MAX_IMAGE_CHARACTERS
  }

  const PLACEHOLDER := JsonObject(map["type" := JsonString("text"), "text" := JsonString(IMAGE_TEXT)])

  /** The images shown beside an output, given how many were shown before this block. */
  function ShownImages(blocks: seq<JsonValue>, shown: nat): (images: seq<Image>)
    ensures |images| + shown <= MAX_IMAGES || images == []
  {
    if blocks == [] then []
    else if IsShownImage(blocks[0], shown) then
      [Image(blocks[0].fields["mime_type"].text, blocks[0].fields["data_base64"].text)]
      + ShownImages(blocks[1..], shown + 1)
    else ShownImages(blocks[1..], shown)
  }

  function OutputImages(value: JsonValue): seq<Image> {
    if value.JsonArray? then ShownImages(value.elements, 0) else []
  }

  function OutputContent(value: JsonValue): JsonValue {
    if value.JsonArray? then
      JsonArray(seq(|value.elements|, i requires 0 <= i < |value.elements| =>
        if IsImageBlock(value.elements[i]) then PLACEHOLDER else value.elements[i]))
    else value
  }

  // ---------------------------------------------------------------- one step

  function CloseTool(tool: Tool): Tool {
    if tool.status == Pending then tool.(status := Unconfirmed) else tool
  }

  /** Every unfinished tool still pending becomes unconfirmed, and nothing stays open. */
  function Finish(st: Projection): Projection {
    st.(tools := seq(|st.tools|, i requires 0 <= i < |st.tools| =>
                   if i in st.unfinished then CloseTool(st.tools[i]) else st.tools[i]),
        pending := map[],
        unfinished := {})
  }

  /** The position of the first terminal state after `key`, looking from `index` on. */
  function SkipTerminals(terminal: seq<nat>, index: nat, key: nat): (next: nat)
    ensures index <= next
    ensures next <= |terminal| || next == index
    decreases |terminal| - index
  {
    if index < |terminal| && terminal[index] <= key then SkipTerminals(terminal, index + 1, key) else index
  }

  predicate EndsTurn(item: Item) {
    item.UserItem? && !item.handoff
  }

  /** A turn boundary lies directly before `item`. */
  predicate Boundary(terminal: seq<nat>, index: nat, item: Item) {
    EndsTurn(item) || SkipTerminals(terminal, index, item.key) != index
  }

  function Open(terminal: seq<nat>, st: Projection, item: Item): Projection {
    var next := SkipTerminals(terminal, st.terminalIndex, item.key);
    var closed := if Boundary(terminal, st.terminalIndex, item) then Finish(st) else st;
    closed.(terminalIndex := next)
  }

  /** The state once the terminal states before position `next` have been passed. */
  function Passed(before: Projection, next: nat): Projection {
    (if next != before.terminalIndex then Finish(before) else before).(terminalIndex := next)
  }

  lemma FinishTwice(before: Projection, st: Projection)
    requires st == before.(terminalIndex := st.terminalIndex)
             || st == Finish(before).(terminalIndex := st.terminalIndex)
    ensures Finish(st) == Finish(before).(terminalIndex := st.terminalIndex)
  {
    assert Finish(st).tools == Finish(before).tools;
  }

  /** On the way through the terminal states up to `key`. */
  ghost predicate Passing(terminal: seq<nat>, key: nat, before: Projection, st: Projection) {
    && before.terminalIndex <= st.terminalIndex
    && SkipTerminals(terminal, st.terminalIndex, key) == SkipTerminals(terminal, before.terminalIndex, key)
    && st == Passed(before, st.terminalIndex)
  }

  lemma PassOne(terminal: seq<nat>, key: nat, before: Projection, st: Projection)
    requires Passing(terminal, key, before, st)
    requires st.terminalIndex < |terminal| && terminal[st.terminalIndex] <= key
    ensures Passing(terminal, key, before, Finish(st).(terminalIndex := st.terminalIndex + 1))
  {
    FinishTwice(before, st);
  }

  lemma PassedAll(terminal: seq<nat>, key: nat, before: Projection, st: Projection)
    requires Passing(terminal, key, before, st)
    requires st.terminalIndex < |terminal| ==> terminal[st.terminalIndex] > key
    ensures st == Passed(before, SkipTerminals(terminal, before.terminalIndex, key))
  {
  }

  function ResultStatus(previous: ToolStatus, isError: bool): ToolStatus {
    if previous == Denied then Denied else if isError then Failed else Completed
  }

  /** The status an approval or question gives to the tool it asks about. */
  function DecisionStatus(item: Item): ToolStatus
    requires item.EventItem?
  {
    if item.value.Question? then
      if !item.resolved then Waiting
      else if item.answers == Declined then Denied
      else if item.answers == Unanswered then Expired
      else Pending
    else
      match item.decision
      case Refused => Denied
      case Lapsed => Expired
      case Allowed => Pending
      case Undecided => Waiting
  }

  function AddTool(st: Projection, key: nat, id: string, name: string, input: JsonValue): Projection {
    var t := |st.tools|;
    st.(rows := st.rows + [ToolRow(t)],
        tools := st.tools + [Tool(key, name, Some(input), None, Pending)],
        unfinished := st.unfinished + {t},
        pending := if id != "" then st.pending[id := t] else st.pending)
  }

  function AddImages(st: Projection, key: nat, images: seq<Image>): Projection {
    if images == [] then st else st.(rows := st.rows + [ImagesRow(key, images)])
  }

  /** A result goes to the pending tool with its id, or else becomes a row of its own. */
  function AddResult(st: Projection, id: string, content: JsonValue, isError: bool, key: nat): Projection {
    if id != "" && id in st.pending && st.pending[id] < |st.tools| then
      var t := st.pending[id];
      var tool := st.tools[t];
      st.(tools := st.tools[t := tool.(output := Some(content), status := ResultStatus(tool.status, isError))],
          pending := st.pending - {id},
          unfinished := st.unfinished - {t})
    else
      st.(rows := st.rows + [ToolRow(|st.tools|)],
          tools := st.tools + [Tool(key, ORPHAN_NAME, None, Some(content), if isError then Failed else Completed)])
  }

  /** The tool id an item asks about, or "" when it asks about none. */
  function AskedTool(item: Item): string {
    if item.EventItem? && (item.value.Approval? || item.value.Question?) then item.value.toolUseId else ""
  }

  function AddAsk(st: Projection, item: Item): Projection
    requires item.EventItem?
  {
    var id := AskedTool(item);
    if id != "" && id in st.pending && st.pending[id] < |st.tools| then
      var t := st.pending[id];
      st.(attached := st.attached + {t},
          rows := st.rows + [ApprovalRow(item, t)],
          tools := st.tools[t := st.tools[t].(status := DecisionStatus(item))])
    else st.(rows := st.rows + [ItemRow(item)])
  }

  /** What `item` does once the boundary before it has been handled. */
  function Place(st: Projection, item: Item): Projection {
    if !item.EventItem? then st.(rows := st.rows + [ItemRow(item)])
    else match item.value
      case ToolCall(id, name, input) => AddTool(st, item.key, id, name, input)
      case ToolResult(id, content, isError) =>
        AddImages(AddResult(st, id, OutputContent(content), isError, item.key), item.key, OutputImages(content))
      case _ => AddAsk(st, item)
  }

  function Step(terminal: seq<nat>, st: Projection, item: Item): Projection {
    Place(Open(terminal, st, item), item)
  }

  function Run(terminal: seq<nat>, st: Projection, items: seq<Item>): Projection
    decreases |items|
  {
    if items == [] then st else Run(terminal, Step(terminal, st, items[0]), items[1..])
  }

  function Close(terminal: seq<nat>, st: Projection): Projection {
    if st.terminalIndex < |terminal| then Finish(st) else st
  }

  /** The whole pass, before grouping. */
  function Project(terminal: seq<nat>, items: seq<Item>): Projection {
    Close(terminal, Run(terminal, EMPTY, items))
  }

  // ---------------------------------------------------------------- invariant

  /** What the maps and sets say about the calls. */
  ghost predicate Valid(st: Projection) {
    && (forall id | id in st.pending :: id != "" && st.pending[id] in st.unfinished)
    && (forall id, id' | id in st.pending && id' in st.pending && st.pending[id] == st.pending[id'] :: id == id')
    && (forall t | t in st.unfinished :: t < |st.tools|)
    && (forall t | 0 <= t < |st.tools| && st.tools[t].status == Pending :: t in st.unfinished)
  }

  lemma OpenKeepsValid(terminal: seq<nat>, st: Projection, item: Item)
    requires Valid(st)
    ensures Valid(Open(terminal, st, item))
  {
  }

  lemma AddToolKeepsValid(st: Projection, key: nat, id: string, name: string, input: JsonValue)
    requires Valid(st)
    ensures Valid(AddTool(st, key, id, name, input))
  {
  }

  lemma AddResultKeepsValid(st: Projection, id: string, content: JsonValue, isError: bool, key: nat)
    requires Valid(st)
    ensures Valid(AddResult(st, id, content, isError, key))
  {
  }

  lemma AddAskKeepsValid(st: Projection, item: Item)
    requires Valid(st) && item.EventItem?
    ensures Valid(AddAsk(st, item))
  {
  }

  lemma PlaceKeepsValid(st: Projection, item: Item)
    requires Valid(st)
    ensures Valid(Place(st, item))
  {
    if item.EventItem? {
      match item.value
      case ToolCall(id, name, input) => AddToolKeepsValid(st, item.key, id, name, input);
      case ToolResult(id, content, isError) => AddResultKeepsValid(st, id, OutputContent(content), isError, item.key);
      case _ => AddAskKeepsValid(st, item);
    }
  }

  lemma StepKeepsValid(terminal: seq<nat>, st: Projection, item: Item)
    requires Valid(st)
    ensures Valid(Step(terminal, st, item))
  {
    OpenKeepsValid(terminal, st, item);
    PlaceKeepsValid(Open(terminal, st, item), item);
  }

  lemma {:induction false} RunKeepsValid(terminal: seq<nat>, st: Projection, items: seq<Item>)
    requires Valid(st)
    ensures Valid(Run(terminal, st, items))
    decreases |items|
  {
    if items != [] {
      StepKeepsValid(terminal, st, items[0]);
      RunKeepsValid(terminal, Step(terminal, st, items[0]), items[1..]);
    }
  }

  // ---------------------------------------------------------------- one tool at a time

  /** `item` is the result a live call with this id waits for. */
  predicate Answers(item: Item, id: string) {
    id != "" && item.EventItem? && item.value.ToolResult? && item.value.id == id
  }

  predicate Asks(item: Item, id: string) {
    id != "" && item.EventItem? && AskedTool(item) == id
  }

  predicate TakesId(item: Item, id: string) {
    item.EventItem? && item.value.ToolCall? && item.value.id == id
  }

  function Answer(tool: Tool, item: Item): Tool
    requires item.EventItem? && item.value.ToolResult?
  {
    tool.(output := Some(OutputContent(item.value.content)), status := ResultStatus(tool.status, item.value.isError))
  }

  /**
   * The life of a single call, read off the log with no shared state: follow the items after it until
   * its result, a turn boundary or the end. `live` says that no later call has taken over its id.
   */
  function Fate(terminal: seq<nat>, index: nat, tool: Tool, id: string, live: bool, items: seq<Item>): Tool
    decreases |items|
  {
    if items == [] then (if index < |terminal| then CloseTool(tool) else tool)
    else if Boundary(terminal, index, items[0]) then CloseTool(tool)
    else if live && Answers(items[0], id) then Answer(tool, items[0])
    else if live && Asks(items[0], id) then
      Fate(terminal, index, tool.(status := DecisionStatus(items[0])), id, live, items[1..])
    else
      Fate(terminal, index, tool, id, live && !TakesId(items[0], id), items[1..])
  }

  /** `id` is the only id under which tool `t` may be pending. */
  ghost predicate Owns(st: Projection, t: nat, id: string) {
    forall x | x in st.pending && st.pending[x] == t :: x == id
  }

  predicate Live(st: Projection, t: nat, id: string) {
    id != "" && id in st.pending && st.pending[id] == t
  }

  /** Between `st` and `next` call `t` changed only by the answer to it or by what asks about it. */
  ghost predicate Follows(st: Projection, next: Projection, item: Item, t: nat, id: string) {
    && t < |st.tools| && t < |next.tools| && Owns(next, t, id)
    && if Live(st, t, id) && Answers(item, id) then
         t !in next.unfinished && next.tools[t] == Answer(st.tools[t], item)
       else
         && t in next.unfinished
         && Live(next, t, id) == (Live(st, t, id) && !TakesId(item, id))
         && next.tools[t] == (if Live(st, t, id) && Asks(item, id)
                              then st.tools[t].(status := DecisionStatus(item)) else st.tools[t])
  }

  lemma CallOnTool(st: Projection, item: Item, t: nat, id: string)
    requires Valid(st) && t in st.unfinished && Owns(st, t, id) && item.EventItem? && item.value.ToolCall?
    ensures Follows(st, Place(st, item), item, t, id)
  {
  }

  lemma ResultOnTool(st: Projection, item: Item, t: nat, id: string)
    requires Valid(st) && t in st.unfinished && Owns(st, t, id) && item.EventItem? && item.value.ToolResult?
    ensures Follows(st, Place(st, item), item, t, id)
  {
  }

  lemma AskOnTool(st: Projection, item: Item, t: nat, id: string)
    requires Valid(st) && t in st.unfinished && Owns(st, t, id)
    requires item.EventItem? && !item.value.ToolCall? && !item.value.ToolResult?
    ensures Follows(st, AddAsk(st, item), item, t, id)
  {
  }

  /** A placed item changes an unfinished call only by answering it or by asking about it. */
  lemma PlaceOnTool(st: Projection, item: Item, t: nat, id: string)
    requires Valid(st) && t in st.unfinished && Owns(st, t, id)
    ensures Follows(st, Place(st, item), item, t, id)
  {
    if item.EventItem? {
      if item.value.ToolCall? {
        CallOnTool(st, item, t, id);
      } else if item.value.ToolResult? {
        ResultOnTool(st, item, t, id);
      } else {
        AskOnTool(st, item, t, id);
      }
    }
  }

  /** A call that is no longer unfinished never changes again. */
  lemma PlaceKeepsFinished(st: Projection, item: Item, t: nat)
    requires Valid(st) && t < |st.tools| && t !in st.unfinished
    ensures var next := Place(st, item);
      t < |next.tools| && next.tools[t] == st.tools[t] && t !in next.unfinished
  {
  }

  lemma {:induction false} FrozenOnceFinished(terminal: seq<nat>, st: Projection, items: seq<Item>, t: nat)
    requires Valid(st) && t < |st.tools| && t !in st.unfinished
    ensures var end := Close(terminal, Run(terminal, st, items));
      t < |end.tools| && end.tools[t] == st.tools[t]
    decreases |items|
  {
    if items != [] {
      OpenKeepsValid(terminal, st, items[0]);
      PlaceKeepsFinished(Open(terminal, st, items[0]), items[0], t);
      StepKeepsValid(terminal, st, items[0]);
      FrozenOnceFinished(terminal, Step(terminal, st, items[0]), items[1..], t);
    }
  }

  /** One step either finishes the call for good, or leaves it unfinished with the rest of its fate ahead. */
  lemma StepOnTool(terminal: seq<nat>, st: Projection, items: seq<Item>, t: nat, id: string)
    requires Valid(st) && t in st.unfinished && Owns(st, t, id) && items != []
    ensures var next := Step(terminal, st, items[0]);
      && Valid(next) && t < |next.tools|
      && var fate := Fate(terminal, st.terminalIndex, st.tools[t], id, Live(st, t, id), items);
        if t in next.unfinished then
          && Owns(next, t, id)
          && fate == Fate(terminal, next.terminalIndex, next.tools[t], id, Live(next, t, id), items[1..])
        else fate == next.tools[t]
  {
    var item, ready := items[0], Open(terminal, st, items[0]);
    OpenKeepsValid(terminal, st, item);
    StepKeepsValid(terminal, st, item);
    if Boundary(terminal, st.terminalIndex, item) {
      PlaceKeepsFinished(ready, item, t);
    } else {
      PlaceOnTool(ready, item, t, id);
    }
  }

  /** The shared maps and sets do to each call exactly what following that call alone would do. */
  lemma {:induction false} RunFollowsFate(terminal: seq<nat>, st: Projection, items: seq<Item>, t: nat, id: string)
    requires Valid(st) && t in st.unfinished && Owns(st, t, id)
    ensures var end := Close(terminal, Run(terminal, st, items));
      t < |end.tools| && end.tools[t] == Fate(terminal, st.terminalIndex, st.tools[t], id, Live(st, t, id), items)
    decreases |items|
  {
    if items != [] {
      var next := Step(terminal, st, items[0]);
      StepOnTool(terminal, st, items, t, id);
      if t in next.unfinished {
        RunFollowsFate(terminal, next, items[1..], t, id);
      } else {
        FrozenOnceFinished(terminal, next, items[1..], t);
      }
    }
  }
}
