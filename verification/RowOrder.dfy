/** Where the rows of the projection stand: every tool has one place, and keys grow down the list. */
module RowOrder {
  import opened Protocol
  import opened Projection
  import opened Grouping

  // ---------------------------------------------------------------- every tool is displayed

  function ToolRefs(rows: seq<Row>): seq<nat> {
    if rows == [] then []
    else ToolRefs(rows[..|rows| - 1]) + (if rows[|rows| - 1].ToolRow? then [rows[|rows| - 1].tool] else [])
  }

  function UpTo(n: nat): (s: seq<nat>)
    ensures |s| == n && forall i | 0 <= i < n :: s[i] == i
  {
    seq(n, i => i)
  }

  /** The tool rows name every tool once, in order, and the attached tools are those shown by an approval. */
  ghost predicate Placed(st: Projection) {
    && ToolRefs(st.rows) == UpTo(|st.tools|)
    && (forall r | r in st.rows && r.ApprovalRow? :: r.approvalTool in st.attached)
    && (forall t | t in st.attached :: exists r :: r in st.rows && r.ApprovalRow? && r.approvalTool == t)
  }

  lemma ToolRefsSnoc(rows: seq<Row>, row: Row)
    ensures ToolRefs(rows + [row]) == ToolRefs(rows) + (if row.ToolRow? then [row.tool] else [])
  {
    assert (rows + [row])[..|rows|] == rows;
  }

  lemma UpToSnoc(n: nat)
    ensures UpTo(n + 1) == UpTo(n) + [n]
  {
  }

  lemma RowAdded(st: Projection, next: Projection, row: Row)
    requires Placed(st) && next.rows == st.rows + [row]
    requires if row.ToolRow? then row.tool == |st.tools| && |next.tools| == |st.tools| + 1
             else |next.tools| == |st.tools|
    requires next.attached == (if row.ApprovalRow? then st.attached + {row.approvalTool} else st.attached)
    ensures Placed(next)
  {
    ToolRefsSnoc(st.rows, row);
    UpToSnoc(|st.tools|);
    assert forall r | r in st.rows :: r in next.rows;
    assert row in next.rows;
  }

  lemma PlaceKeepsPlaced(st: Projection, item: Item)
    requires Placed(st)
    ensures Placed(Place(st, item))
  {
    if item.EventItem? && item.value.ToolResult? {
      var middle := AddResult(st, item.value.id, OutputContent(item.value.content), item.value.isError, item.key);
      if middle.rows != st.rows {
        RowAdded(st, middle, middle.rows[|st.rows|]);
      }
      var images := OutputImages(item.value.content);
      if images != [] {
        RowAdded(middle, Place(st, item), ImagesRow(item.key, images));
      }
    } else {
      RowAdded(st, Place(st, item), Place(st, item).rows[|st.rows|]);
    }
  }

  lemma {:induction false} RunKeepsPlaced(terminal: seq<nat>, st: Projection, items: seq<Item>)
    requires Placed(st)
    ensures Placed(Run(terminal, st, items))
    decreases |items|
  {
    if items != [] {
      assert Placed(Open(terminal, st, items[0]));
      PlaceKeepsPlaced(Open(terminal, st, items[0]), items[0]);
      RunKeepsPlaced(terminal, Step(terminal, st, items[0]), items[1..]);
    }
  }

  lemma {:induction false} RefHasRow(rows: seq<Row>, t: nat)
    requires t in ToolRefs(rows)
    ensures ToolRow(t) in rows
  {
    var n := |rows| - 1;
    if !(rows[n].ToolRow? && rows[n].tool == t) {
      RefHasRow(rows[..n], t);
    }
  }

  lemma {:induction false} RowIsUngrouped(rows: seq<Row>, tools: seq<Tool>, attached: set<nat>, row: Row)
    requires InRange(rows, |tools|) && row in rows && !(row.ToolRow? && row.tool in attached)
    ensures Resolve(tools, row) in Ungrouped(rows, tools, attached)
  {
    var n := |rows| - 1;
    if row != rows[n] {
      RowIsUngrouped(rows[..n], tools, attached, row);
    }
  }

  /** Every tool of the log is displayed: by itself, inside a group, or with the approval it waits on. */
  lemma NoToolIsLost(terminal: seq<nat>, items: seq<Item>, t: nat)
    requires t < |Project(terminal, items).tools|
    ensures var tool := Project(terminal, items).tools[t];
      var rows := Flatten(Display(terminal, items));
      Single(tool) in rows || exists item :: Asked(item, tool) in rows
  {
    var st := Project(terminal, items);
    var tool := st.tools[t];
    RunKeepsPlaced(terminal, EMPTY, items);
    RunKeepsRange(terminal, EMPTY, items);
    DisplayFlattens(terminal, items);
    if t in st.attached {
      var r :| r in st.rows && r.ApprovalRow? && r.approvalTool == t;
      RowIsUngrouped(st.rows, st.tools, st.attached, r);
      assert Asked(r.item, tool) in Flatten(Display(terminal, items));
    } else {
      assert UpTo(|st.tools|)[t] == t;
      RefHasRow(st.rows, t);
      RowIsUngrouped(st.rows, st.tools, st.attached, ToolRow(t));
    }
  }

  // ---------------------------------------------------------------- keys grow down the list

  function RowKey(tools: seq<Tool>, row: Row): real
    requires row.ToolRow? ==> row.tool < |tools|
  {
    match row
    case ToolRow(t) => tools[t].key as real
    case ImagesRow(after, _) => after as real + 0.5
    case ItemRow(item) => item.key as real
    case ApprovalRow(item, _) => item.key as real
  }

  function ActivityKey(row: Activity): real {
    match row
    case Images(after, _) => after as real + 0.5
    case Plain(item) => item.key as real
    case Asked(item, _) => item.key as real
    case Single(tool) => tool.key as real
    case Group(key, _) => key as real
  }

  /** The keys grow strictly down the rows and stay below `bound`. */
  ghost predicate Sorted(tools: seq<Tool>, rows: seq<Row>, bound: real) {
    && InRange(rows, |tools|)
    && (forall i | 0 <= i < |rows| :: RowKey(tools, rows[i]) < bound)
    && (forall i, j | 0 <= i < j < |rows| :: RowKey(tools, rows[i]) < RowKey(tools, rows[j]))
  }

  ghost predicate SameKeys(a: seq<Tool>, b: seq<Tool>) {
    |a| <= |b| && forall t | 0 <= t < |a| :: a[t].key == b[t].key
  }

  lemma SortedSnoc(tools: seq<Tool>, tools': seq<Tool>, rows: seq<Row>, row: Row, low: real, high: real)
    requires Sorted(tools, rows, low) && SameKeys(tools, tools') && InRange([row], |tools'|)
    requires row in [row] && low <= RowKey(tools', row) < high
    ensures Sorted(tools', rows + [row], high)
  {
    forall r | r in rows ensures InRange([r], |tools'|) && RowKey(tools, r) == RowKey(tools', r) {
    }
  }

  lemma SortedWiden(tools: seq<Tool>, tools': seq<Tool>, rows: seq<Row>, low: real, high: real)
    requires Sorted(tools, rows, low) && SameKeys(tools, tools') && low <= high
    ensures Sorted(tools', rows, high)
  {
    forall r | r in rows ensures InRange([r], |tools'|) && RowKey(tools, r) == RowKey(tools', r) {
    }
  }

  lemma ResultKeepsSorted(st: Projection, id: string, content: JsonValue, isError: bool, key: nat)
    requires Sorted(st.tools, st.rows, key as real)
    ensures var next := AddResult(st, id, content, isError, key); Sorted(next.tools, next.rows, key as real + 0.5)
  {
    var low, next := key as real, AddResult(st, id, content, isError, key);
    if next.rows == st.rows {
      SortedWiden(st.tools, next.tools, st.rows, low, low + 0.5);
    } else {
      SortedSnoc(st.tools, next.tools, st.rows, next.rows[|st.rows|], low, low + 0.5);
    }
  }

  lemma ImagesKeepSorted(st: Projection, key: nat, images: seq<Image>)
    requires Sorted(st.tools, st.rows, key as real + 0.5)
    ensures Sorted(AddImages(st, key, images).tools, AddImages(st, key, images).rows, key as real + 1.0)
  {
    var low := key as real;
    if images == [] {
      SortedWiden(st.tools, st.tools, st.rows, low + 0.5, low + 1.0);
    } else {
      SortedSnoc(st.tools, st.tools, st.rows, ImagesRow(key, images), low + 0.5, low + 1.0);
    }
  }

  lemma PlaceKeepsSorted(st: Projection, item: Item)
    requires Sorted(st.tools, st.rows, item.key as real)
    ensures Sorted(Place(st, item).tools, Place(st, item).rows, item.key as real + 1.0)
  {
    if item.EventItem? && item.value.ToolResult? {
      var id, content, isError := item.value.id, OutputContent(item.value.content), item.value.isError;
      ResultKeepsSorted(st, id, content, isError, item.key);
      ImagesKeepSorted(AddResult(st, id, content, isError, item.key), item.key, OutputImages(item.value.content));
    } else {
      var low, next := item.key as real, Place(st, item);
      SortedSnoc(st.tools, next.tools, st.rows, next.rows[|st.rows|], low, low + 1.0);
    }
  }

  lemma StepKeepsSorted(terminal: seq<nat>, st: Projection, item: Item, bound: real)
    requires Sorted(st.tools, st.rows, bound) && bound <= item.key as real
    ensures Sorted(Step(terminal, st, item).tools, Step(terminal, st, item).rows, item.key as real + 1.0)
  {
    var ready := Open(terminal, st, item);
    SortedWiden(st.tools, ready.tools, st.rows, bound, item.key as real);
    PlaceKeepsSorted(ready, item);
  }

  lemma {:induction false} RunKeepsSorted(terminal: seq<nat>, st: Projection, items: seq<Item>, bound: real)
    returns (high: real)
    requires Sorted(st.tools, st.rows, bound) && KeysIncrease(items)
    requires items != [] ==> bound <= items[0].key as real
    ensures Sorted(Run(terminal, st, items).tools, Run(terminal, st, items).rows, high)
    decreases |items|
  {
    if items == [] {
      high := bound;
    } else {
      StepKeepsSorted(terminal, st, items[0], bound);
      if |items| > 1 {
        assert items[0].key + 1 <= items[1].key;
      }
      high := RunKeepsSorted(terminal, Step(terminal, st, items[0]), items[1..], items[0].key as real + 1.0);
    }
  }

  ghost predicate KeysGrow(rows: seq<Activity>) {
    forall i, j | 0 <= i < j < |rows| :: ActivityKey(rows[i]) < ActivityKey(rows[j])
  }

  ghost predicate KeysBelow(rows: seq<Activity>, bound: real) {
    forall i | 0 <= i < |rows| :: ActivityKey(rows[i]) < bound
  }

  lemma {:induction false} UngroupedKeysGrow(rows: seq<Row>, tools: seq<Tool>, attached: set<nat>, bound: real)
    requires Sorted(tools, rows, bound)
    ensures KeysGrow(Ungrouped(rows, tools, attached)) && KeysBelow(Ungrouped(rows, tools, attached), bound)
    decreases |rows|
  {
    if rows != [] {
      var n := |rows| - 1;
      assert rows[n] in rows;
      assert ActivityKey(Resolve(tools, rows[n])) == RowKey(tools, rows[n]);
      UngroupedKeysGrow(rows[..n], tools, attached, RowKey(tools, rows[n]));
    }
  }

  lemma KeysGrowSplit(a: seq<Activity>, b: seq<Activity>)
    requires KeysGrow(a + b)
    ensures KeysGrow(a) && KeysGrow(b)
    ensures forall i, j | 0 <= i < |a| && 0 <= j < |b| :: ActivityKey(a[i]) < ActivityKey(b[j])
  {
    forall i, j | 0 <= i < |a| && 0 <= j < |b| ensures ActivityKey(a[i]) < ActivityKey(b[j]) {
      assert (a + b)[i] == a[i] && (a + b)[|a| + j] == b[j];
    }
    forall i, j | 0 <= i < j < |a| ensures ActivityKey(a[i]) < ActivityKey(a[j]) {
      assert (a + b)[i] == a[i] && (a + b)[j] == a[j];
    }
    forall i, j | 0 <= i < j < |b| ensures ActivityKey(b[i]) < ActivityKey(b[j]) {
      assert (a + b)[|a| + i] == b[i] && (a + b)[|a| + j] == b[j];
    }
  }

  /** A grouped row carries the key of a member, so grouping keeps the keys growing. */
  lemma {:induction false} GroupedKeysGrow(grouped: seq<Activity>, bound: real)
    requires (forall i | 0 <= i < |grouped| :: ProperGroup(grouped[i]))
    requires KeysGrow(Flatten(grouped)) && KeysBelow(Flatten(grouped), bound)
    ensures KeysGrow(grouped) && KeysBelow(grouped, bound)
    decreases |grouped|
  {
    if grouped != [] {
      var n := |grouped| - 1;
      var front, members := Flatten(grouped[..n]), Members(grouped[n]);
      assert ActivityKey(grouped[n]) == ActivityKey(members[0]);
      KeysGrowSplit(front, members);
      assert Flatten(grouped)[|front|] == members[0];
      forall i | 0 <= i < |front| ensures ActivityKey(front[i]) < ActivityKey(members[0]) {
      }
      GroupedKeysGrow(grouped[..n], ActivityKey(members[0]));
    }
  }

  /** The keys grow through the groups as well. */
  lemma MemberKeysGrow(terminal: seq<nat>, items: seq<Item>) returns (high: real)
    requires KeysIncrease(items)
    ensures KeysGrow(Flatten(Display(terminal, items))) && KeysBelow(Flatten(Display(terminal, items)), high)
  {
    high := RunKeepsSorted(terminal, EMPTY, items, 0.0);
    var end, st := Run(terminal, EMPTY, items), Project(terminal, items);
    SortedWiden(end.tools, st.tools, end.rows, high, high);
    UngroupedKeysGrow(st.rows, st.tools, st.attached, high);
    DisplayFlattens(terminal, items);
  }

  /** No two displayed rows share a key, and keys follow the order of the log. */
  lemma DisplayKeysGrow(terminal: seq<nat>, items: seq<Item>)
    requires KeysIncrease(items)
    ensures KeysGrow(Display(terminal, items))
  {
    var high := MemberKeysGrow(terminal, items);
    DisplayFlattens(terminal, items);
    GroupedKeysGrow(Display(terminal, items), high);
  }
}
