/**
 * What is displayed, kind by kind and from the log: rows of images, rows of items, asks with the call they are
 * about, and tools without one.
 */
module DisplayedRows {
  import opened Protocol
  import opened Projection
  import ProjectionTheorems
  import opened OpenCalls
  import opened Grouping
  import RowOrder
  import opened ConfirmedTurns
  import TurnBarriers

  // ---------------------------------------------------------------- images

  /** The item is a result with these images. */
  predicate Shows(item: Item, after: nat, images: seq<Image>) {
    && item.EventItem? && item.value.ToolResult? && item.key == after
    && images == OutputImages(item.value.content) && images != []
  }

  lemma PlaceShows(st: Projection, item: Item, after: nat, images: seq<Image>)
    ensures ImagesRow(after, images) in Place(st, item).rows
            <==> ImagesRow(after, images) in st.rows || Shows(item, after, images)
  {
    if item.EventItem? && item.value.ToolResult? {
      var middle := AddResult(st, item.value.id, OutputContent(item.value.content), item.value.isError, item.key);
      ResultAddsNoImages(st, item.value.id, OutputContent(item.value.content), item.value.isError, item.key,
                         ImagesRow(after, images));
      RowsWithImages(middle, item.key, OutputImages(item.value.content), ImagesRow(after, images));
    }
  }

  lemma ResultAddsNoImages(st: Projection, id: string, content: JsonValue, isError: bool, key: nat, row: Row)
    requires row.ImagesRow?
    ensures row in AddResult(st, id, content, isError, key).rows <==> row in st.rows
  {
  }

  lemma RowsWithImages(st: Projection, key: nat, images: seq<Image>, row: Row)
    ensures row in AddImages(st, key, images).rows
            <==> row in st.rows || (images != [] && row == ImagesRow(key, images))
  {
  }

  ghost predicate ShownBefore(items: seq<Item>, n: nat, after: nat, images: seq<Image>)
    requires n <= |items|
  {
    exists k :: 0 <= k < n && Shows(items[k], after, images)
  }

  lemma ShownNext(items: seq<Item>, n: nat, after: nat, images: seq<Image>)
    requires n < |items|
    ensures ShownBefore(items, n + 1, after, images)
            <==> ShownBefore(items, n, after, images) || Shows(items[n], after, images)
  {
  }

  lemma {:induction false} RunShows(terminal: seq<nat>, items: seq<Item>, n: nat, after: nat, images: seq<Image>)
    requires n <= |items|
    ensures ImagesRow(after, images) in Run(terminal, EMPTY, items[..n]).rows <==> ShownBefore(items, n, after, images)
    decreases n
  {
    if n > 0 {
      RunShows(terminal, items, n - 1, after, images);
      ShownNext(items, n - 1, after, images);
      ProjectionTheorems.RunSnoc(terminal, items, n - 1);
      PlaceShows(ProjectionTheorems.Ready(terminal, items, n - 1), items[n - 1], after, images);
    } else {
      assert items[..0] == [];
    }
  }

  /** A row of images is never grouped and never left out. */
  lemma DisplayedIff(terminal: seq<nat>, items: seq<Item>, after: nat, images: seq<Image>)
    ensures Images(after, images) in Display(terminal, items)
            <==> ImagesRow(after, images) in Project(terminal, items).rows
  {
    var st := Project(terminal, items);
    DisplayFlattens(terminal, items);
    if Images(after, images) in Display(terminal, items) {
      FlattenHas(Display(terminal, items), Images(after, images), Images(after, images));
      UngroupedImages(st.rows, st.tools, st.attached, after, images);
    }
    if ImagesRow(after, images) in st.rows {
      RowOrder.RowIsUngrouped(st.rows, st.tools, st.attached, ImagesRow(after, images));
      FlattenFrom(Display(terminal, items), Images(after, images));
    }
  }

  lemma UngroupedImages(rows: seq<Row>, tools: seq<Tool>, attached: set<nat>, after: nat, images: seq<Image>)
    requires InRange(rows, |tools|) && Images(after, images) in Ungrouped(rows, tools, attached)
    ensures ImagesRow(after, images) in rows
  {
    var row := UngroupedIsRow(rows, tools, attached, Images(after, images));
  }

  /**
   * A row of images is displayed if and only if a result of the log holds exactly these images among its blocks,
   * fit to be shown, and at least one.
   */
  lemma ImagesAreShownIff(terminal: seq<nat>, items: seq<Item>, after: nat, images: seq<Image>)
    ensures Images(after, images) in Display(terminal, items)
            <==> exists k :: 0 <= k < |items| && items[k].EventItem? && items[k].value.ToolResult?
                             && items[k].key == after && images == OutputImages(items[k].value.content)
                             && images != []
  {
    assert items[..|items|] == items;
    RunShows(terminal, items, |items|, after, images);
    DisplayedIff(terminal, items, after, images);
    if k :| 0 <= k < |items| && Shows(items[k], after, images) {
    }
    if k :| 0 <= k < |items| && items[k].EventItem? && items[k].value.ToolResult?
            && items[k].key == after && images == OutputImages(items[k].value.content) && images != [] {
      assert Shows(items[k], after, images);
    }
  }

  // ---------------------------------------------------------------- items

  /** The item asks about a call that is pending in this state. */
  predicate Attaches(st: Projection, item: Item) {
    AskedTool(item) != "" && AskedTool(item) in st.pending
  }

  lemma PlacesItem(st: Projection, item: Item, x: Item)
    requires Valid(st)
    ensures ItemRow(x) in Place(st, item).rows
            <==> ItemRow(x) in st.rows || (x == item && !IsToolItem(item) && !Attaches(st, item))
  {
  }

  ghost predicate MakesItemRow(terminal: seq<nat>, items: seq<Item>, k: nat, x: Item) {
    k < |items| && items[k] == x && !IsToolItem(x) && !Attaches(ProjectionTheorems.Ready(terminal, items, k), x)
  }

  ghost predicate MadeBefore(terminal: seq<nat>, items: seq<Item>, n: nat, x: Item) {
    exists k: nat :: k < n && MakesItemRow(terminal, items, k, x)
  }

  lemma MadeNext(terminal: seq<nat>, items: seq<Item>, n: nat, x: Item)
    ensures MadeBefore(terminal, items, n + 1, x)
            <==> MadeBefore(terminal, items, n, x) || MakesItemRow(terminal, items, n, x)
  {
  }

  lemma {:induction false} RunItems(terminal: seq<nat>, items: seq<Item>, n: nat, x: Item)
    requires n <= |items|
    ensures ItemRow(x) in Run(terminal, EMPTY, items[..n]).rows <==> MadeBefore(terminal, items, n, x)
    decreases n
  {
    if n > 0 {
      RunItems(terminal, items, n - 1, x);
      MadeNext(terminal, items, n - 1, x);
      ProjectionTheorems.RunSnoc(terminal, items, n - 1);
      TurnBarriers.ReadyIsValid(terminal, items, n - 1);
      PlacesItem(ProjectionTheorems.Ready(terminal, items, n - 1), items[n - 1], x);
    } else {
      assert items[..0] == [];
    }
  }

  lemma PlainIsItemRow(terminal: seq<nat>, items: seq<Item>, x: Item)
    ensures Plain(x) in Display(terminal, items) <==> ItemRow(x) in Project(terminal, items).rows
  {
    var st := Project(terminal, items);
    DisplayFlattens(terminal, items);
    if Plain(x) in Display(terminal, items) {
      FlattenHas(Display(terminal, items), Plain(x), Plain(x));
      UngroupedPlain(st.rows, st.tools, st.attached, x);
    }
    if ItemRow(x) in st.rows {
      RowOrder.RowIsUngrouped(st.rows, st.tools, st.attached, ItemRow(x));
      FlattenFrom(Display(terminal, items), Plain(x));
    }
  }

  lemma UngroupedPlain(rows: seq<Row>, tools: seq<Tool>, attached: set<nat>, x: Item)
    requires InRange(rows, |tools|) && Plain(x) in Ungrouped(rows, tools, attached)
    ensures ItemRow(x) in rows
  {
    var row := UngroupedIsRow(rows, tools, attached, Plain(x));
  }

  /** The item at `k` asks about a call that is open when it comes. */
  ghost predicate AsksOpenCall(terminal: seq<nat>, items: seq<Item>, k: nat)
    requires k < |items|
  {
    && items[k].EventItem? && (items[k].value.Approval? || items[k].value.Question?)
    && StaysHeld(terminal, items, k, items[k].value.toolUseId)
  }

  lemma AttachesIff(terminal: seq<nat>, items: seq<Item>, k: nat)
    requires Increasing(terminal) && KeysIncrease(items) && k < |items|
    ensures Attaches(ProjectionTheorems.Ready(terminal, items, k), items[k]) <==> AsksOpenCall(terminal, items, k)
  {
    PendingIff(terminal, items, k, AskedTool(items[k]));
  }

  /**
   * An item has a row of its own if and only if it is neither a call nor a result, nor an approval or question about
   * a call that is open when it comes.
   */
  lemma PlainIsShownIff(terminal: seq<nat>, items: seq<Item>, x: Item)
    requires Increasing(terminal) && KeysIncrease(items)
    ensures Plain(x) in Display(terminal, items)
            <==> exists k :: 0 <= k < |items| && items[k] == x && !IsToolItem(x) && !AsksOpenCall(terminal, items, k)
  {
    assert items[..|items|] == items;
    RunItems(terminal, items, |items|, x);
    PlainIsItemRow(terminal, items, x);
    forall k: nat | k < |items|
      ensures MakesItemRow(terminal, items, k, x)
              <==> items[k] == x && !IsToolItem(x) && !AsksOpenCall(terminal, items, k)
    {
      AttachesIff(terminal, items, k);
    }
  }

  // ---------------------------------------------------------------- asks with their call

  lemma HolderIsPending(st: Projection, item: Item, id: string)
    requires Valid(st) && id != "" && TakesId(item, id)
    ensures var next := Place(st, item);
      id in next.pending && next.pending[id] < |next.tools| && next.tools[next.pending[id]].key == item.key
  {
  }

  lemma HolderStays(st: Projection, item: Item, id: string)
    requires Valid(st) && id in st.pending && !TakesId(item, id) && !Answers(item, id)
    ensures var next := Place(st, item);
      id in next.pending && next.pending[id] == st.pending[id]
      && st.pending[id] < |st.tools| <= |next.tools|
      && next.tools[st.pending[id]].key == st.tools[st.pending[id]].key
  {
  }

  /** The tool that an id stands for while call `c` holds it. */
  ghost predicate StandsFor(st: Projection, id: string, key: nat) {
    id in st.pending && st.pending[id] < |st.tools| && st.tools[st.pending[id]].key == key
  }

  lemma OpenKeepsHolder(terminal: seq<nat>, st: Projection, item: Item, id: string, key: nat)
    requires StandsFor(st, id, key) && !Boundary(terminal, st.terminalIndex, item)
    ensures StandsFor(Open(terminal, st, item), id, key)
  {
  }

  lemma {:induction false} HolderIs(terminal: seq<nat>, items: seq<Item>, c: nat, n: nat, id: string)
    requires Increasing(terminal) && KeysIncrease(items) && n <= |items| && id != ""
    requires HoldsId(terminal, items, c, n, id)
    ensures StandsFor(Run(terminal, EMPTY, items[..n]), id, items[c].key)
    decreases n
  {
    var m := n - 1;
    var ready := ProjectionTheorems.Ready(terminal, items, m);
    ProjectionTheorems.RunSnoc(terminal, items, m);
    TurnBarriers.ReadyIsValid(terminal, items, m);
    if c == m {
      HolderIsPending(ready, items[m], id);
    } else {
      HoldsNext(terminal, items, c, m, id);
      HolderIs(terminal, items, c, m, id);
      NoBoundary(terminal, items, c, m, id);
      OpenKeepsHolder(terminal, Run(terminal, EMPTY, items[..m]), items[m], id, items[c].key);
      HolderStays(ready, items[m], id);
    }
  }

  lemma NoBoundary(terminal: seq<nat>, items: seq<Item>, c: nat, n: nat, id: string)
    requires Increasing(terminal) && KeysIncrease(items) && n < |items| && HoldsId(terminal, items, c, n, id)
    requires !EndsBy(terminal, items[c].key, items[n])
    ensures !Boundary(terminal, Run(terminal, EMPTY, items[..n]).terminalIndex, items[n])
  {
    RunSplits(terminal, items, n);
    SameBoundary(terminal, items, c, n, id);
    BoundaryIff(terminal, Run(terminal, EMPTY, items[..n]).terminalIndex, items[n - 1].key, items[n]);
  }

  /** The item at `k` asks about the open call at `c`. */
  ghost predicate AsksCall(terminal: seq<nat>, items: seq<Item>, k: nat, c: nat)
    requires k < |items|
  {
    && items[k].EventItem? && (items[k].value.Approval? || items[k].value.Question?) && items[k].value.toolUseId != ""
    && HoldsId(terminal, items, c, k, items[k].value.toolUseId) && !EndsBy(terminal, items[c].key, items[k])
  }

  lemma AskedIsHolder(terminal: seq<nat>, items: seq<Item>, k: nat, c: nat)
    requires Increasing(terminal) && KeysIncrease(items) && k < |items| && AsksCall(terminal, items, k, c)
    ensures StandsFor(ProjectionTheorems.Ready(terminal, items, k), items[k].value.toolUseId, items[c].key)
  {
    var id := items[k].value.toolUseId;
    HolderIs(terminal, items, c, k, id);
    NoBoundary(terminal, items, c, k, id);
    OpenKeepsHolder(terminal, Run(terminal, EMPTY, items[..k]), items[k], id, items[c].key);
  }

  /** An ask that is displayed with a tool asks about the open call that this tool is. */
  lemma AskedShowsItsCall(terminal: seq<nat>, items: seq<Item>, item: Item, tool: Tool) returns (k: nat, c: nat)
    requires Increasing(terminal) && KeysIncrease(items) && Asked(item, tool) in Display(terminal, items)
    ensures k < |items| && items[k] == item && AsksCall(terminal, items, k, c) && tool.key == items[c].key
  {
    var t;
    k, t := TurnBarriers.AskedIsAttached(terminal, items, Asked(item, tool));
    AttachesIff(terminal, items, k);
    c := Holder(terminal, items, k, items[k].value.toolUseId);
    AskedIsHolder(terminal, items, k, c);
    TurnBarriers.ReadyIsValid(terminal, items, k);
    TurnBarriers.PlaceKeepsKeys(ProjectionTheorems.Ready(terminal, items, k), items[k]);
    TurnBarriers.KeepsFrom(terminal, items, k);
  }

  lemma Holder(terminal: seq<nat>, items: seq<Item>, n: nat, id: string) returns (c: nat)
    requires n < |items| && StaysHeld(terminal, items, n, id)
    ensures HoldsId(terminal, items, c, n, id) && !EndsBy(terminal, items[c].key, items[n])
  {
    c :| HoldsId(terminal, items, c, n, id) && !EndsBy(terminal, items[c].key, items[n]);
  }

  lemma AskIsUngrouped(rows: seq<Row>, tools: seq<Tool>, attached: set<nat>, item: Item, t: nat)
    requires InRange(rows, |tools|) && ApprovalRow(item, t) in rows && t < |tools|
    ensures Asked(item, tools[t]) in Ungrouped(rows, tools, attached)
  {
    RowOrder.RowIsUngrouped(rows, tools, attached, ApprovalRow(item, t));
  }

  lemma AskRowIsShown(terminal: seq<nat>, items: seq<Item>, item: Item, t: nat)
    requires ApprovalRow(item, t) in Project(terminal, items).rows && t < |Project(terminal, items).tools|
    ensures Asked(item, Project(terminal, items).tools[t]) in Display(terminal, items)
  {
    var st := Project(terminal, items);
    DisplayFlattens(terminal, items);
    AskIsUngrouped(st.rows, st.tools, st.attached, item, t);
    FlattenFrom(Display(terminal, items), Asked(item, st.tools[t]));
  }

  /** And every such ask is displayed with the tool of that call. */
  lemma AskIsShownWithItsCall(terminal: seq<nat>, items: seq<Item>, k: nat, c: nat) returns (tool: Tool)
    requires Increasing(terminal) && KeysIncrease(items) && k < |items| && AsksCall(terminal, items, k, c)
    ensures Asked(items[k], tool) in Display(terminal, items) && tool.key == items[c].key
  {
    var ready := ProjectionTheorems.Ready(terminal, items, k);
    AskedIsHolder(terminal, items, k, c);
    TurnBarriers.ReadyIsValid(terminal, items, k);
    var row := TurnBarriers.AskIsAttached(ready, items[k]);
    var t := ready.pending[items[k].value.toolUseId];
    TurnBarriers.PlaceKeepsKeys(ready, items[k]);
    TurnBarriers.KeepsFrom(terminal, items, k);
    tool := Project(terminal, items).tools[t];
    AskRowIsShown(terminal, items, items[k], t);
  }

  // ---------------------------------------------------------------- tools without an ask

  lemma {:induction false} RowHasRef(rows: seq<Row>, t: nat)
    requires ToolRow(t) in rows
    ensures t in RowOrder.ToolRefs(rows)
  {
    var n := |rows| - 1;
    if rows[n] != ToolRow(t) {
      RowHasRef(rows[..n], t);
    }
  }

  /** No two tools have the same key. */
  ghost predicate KeysDiffer(tools: seq<Tool>) {
    forall i, j | 0 <= i < |tools| && 0 <= j < |tools| && tools[i].key == tools[j].key :: i == j
  }

  lemma SortedDiffer(st: Projection, bound: real)
    requires RowOrder.Placed(st) && RowOrder.Sorted(st.tools, st.rows, bound)
    ensures KeysDiffer(st.tools)
  {
    forall i, j | 0 <= i < |st.tools| && 0 <= j < |st.tools| && st.tools[i].key == st.tools[j].key ensures i == j {
      assert RowOrder.ToolRefs(st.rows)[i] == i && RowOrder.ToolRefs(st.rows)[j] == j;
      RowOrder.RefHasRow(st.rows, i);
      RowOrder.RefHasRow(st.rows, j);
      var a :| 0 <= a < |st.rows| && st.rows[a] == ToolRow(i);
      var b :| 0 <= b < |st.rows| && st.rows[b] == ToolRow(j);
      assert RowOrder.RowKey(st.tools, st.rows[a]) == RowOrder.RowKey(st.tools, st.rows[b]);
    }
  }

  lemma ToolKeysDiffer(terminal: seq<nat>, items: seq<Item>)
    requires KeysIncrease(items)
    ensures RowOrder.Placed(Project(terminal, items)) && KeysDiffer(Project(terminal, items).tools)
  {
    var end := Run(terminal, EMPTY, items);
    var high := RowOrder.RunKeepsSorted(terminal, EMPTY, items, 0.0);
    RowOrder.RunKeepsPlaced(terminal, EMPTY, items);
    SortedDiffer(end, high);
  }

  /** A tool stands by itself or in a group exactly if no approval or question shows it. */
  lemma ToolIsAloneIff(terminal: seq<nat>, items: seq<Item>, t: nat)
    requires KeysIncrease(items) && t < |Project(terminal, items).tools|
    ensures var tool := Project(terminal, items).tools[t];
      Single(tool) in Flatten(Display(terminal, items))
      <==> !exists item :: Asked(item, tool) in Display(terminal, items)
  {
    var st := Project(terminal, items);
    var tool := st.tools[t];
    ToolKeysDiffer(terminal, items);
    DisplayFlattens(terminal, items);
    RowOrder.NoToolIsLost(terminal, items, t);
    if item :| Asked(item, tool) in Flatten(Display(terminal, items)) {
      FlattenFrom(Display(terminal, items), Asked(item, tool));
    }
    if item :| Asked(item, tool) in Display(terminal, items) {
      FlattenHas(Display(terminal, items), Asked(item, tool), Asked(item, tool));
      AskedIsNotAlone(st, item, t);
    }
  }

  lemma AskedIsNotAlone(st: Projection, item: Item, t: nat)
    requires RowOrder.Placed(st) && KeysDiffer(st.tools) && InRange(st.rows, |st.tools|) && t < |st.tools|
    requires Asked(item, st.tools[t]) in Ungrouped(st.rows, st.tools, st.attached)
    ensures Single(st.tools[t]) !in Ungrouped(st.rows, st.tools, st.attached)
  {
    var r := UngroupedIsRow(st.rows, st.tools, st.attached, Asked(item, st.tools[t]));
    assert r.approvalTool == t;
    NoAttachedTool(st.rows, st.tools, st.attached, t);
  }

  lemma {:induction false} NoAttachedTool(rows: seq<Row>, tools: seq<Tool>, attached: set<nat>, t: nat)
    requires InRange(rows, |tools|) && KeysDiffer(tools) && t < |tools| && t in attached
    ensures Single(tools[t]) !in Ungrouped(rows, tools, attached)
  {
    if rows != [] {
      NoAttachedTool(rows[..|rows| - 1], tools, attached, t);
    }
  }

  // ---------------------------------------------------------------- groups

  /** A group, or a tool with a status under which tools are grouped. */
  predicate MayJoin(row: Activity) {
    row.Group? || (row.Single? && row.tool.status in {Pending, Completed, Unconfirmed})
  }

  /**
   * Every displayed group has the key of its first tool and at least two tools, each pending, completed or unconfirmed;
   * and nowhere do two such rows stand next to each other.
   */
  lemma GroupsAreWhole(terminal: seq<nat>, items: seq<Item>)
    ensures var rows := Display(terminal, items);
      && (forall row | row in rows && row.Group? ::
            && |row.tools| >= 2 && row.key == row.tools[0].key
            && forall tool | tool in row.tools :: tool.status in {Pending, Completed, Unconfirmed})
      && forall i, j | 0 <= i < j < |rows| && j == i + 1 :: !(MayJoin(rows[i]) && MayJoin(rows[j]))
  {
    DisplayFlattens(terminal, items);
    var rows := Display(terminal, items);
    forall row | row in rows && row.Group? ensures ProperGroup(row) {
      var i :| 0 <= i < |rows| && rows[i] == row;
    }
    forall i | 0 <= i < |rows| ensures MayJoin(rows[i]) <==> Joins(rows[i]) {
    }
  }
}
