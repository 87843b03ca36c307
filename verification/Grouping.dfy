/** Collapsing neighbouring tool rows into groups. */
module Grouping {
  import opened Protocol
  import opened Projection
  import opened Sequences

  /** One displayed row. A group carries the key of its first tool; image rows have key `after` + 0.5. */
  datatype Activity =
    | Images(after: nat, images: seq<Image>)
    | Plain(item: Item)
    | Asked(item: Item, approvalTool: Tool)
    | Single(tool: Tool)
    | Group(key: nat, tools: seq<Tool>)

  predicate Quiet(status: ToolStatus) {
    status == Pending || status == Completed || status == Unconfirmed
  }

  /** A row that a quiet tool directly after it would join. */
  predicate Joins(row: Activity) {
    row.Group? || (row.Single? && Quiet(row.tool.status))
  }

  // ---------------------------------------------------------------- the rows to group

  /** Every tool the rows mention is in the tool list. */
  predicate InRange(rows: seq<Row>, count: nat) {
    forall r | r in rows :: (r.ToolRow? ==> r.tool < count) && (r.ApprovalRow? ==> r.approvalTool < count)
  }

  function Resolve(tools: seq<Tool>, row: Row): Activity
    requires row.ToolRow? ==> row.tool < |tools|
    requires row.ApprovalRow? ==> row.approvalTool < |tools|
  {
    match row
    case ToolRow(t) => Single(tools[t])
    case ImagesRow(after, images) => Images(after, images)
    case ItemRow(item) => Plain(item)
    case ApprovalRow(item, t) => Asked(item, tools[t])
  }

  /** The rows with their final tools, without the tools that an approval already shows. */
  function Ungrouped(rows: seq<Row>, tools: seq<Tool>, attached: set<nat>): seq<Activity>
    requires InRange(rows, |tools|)
  {
    if rows == [] then []
    else
      var n := |rows| - 1;
      var front := Ungrouped(rows[..n], tools, attached);
      if rows[n].ToolRow? && rows[n].tool in attached then front else front + [Resolve(tools, rows[n])]
  }

  lemma RangeGrows(rows: seq<Row>, row: Row, count: nat, more: nat)
    requires InRange(rows, count) && count <= more
    requires (row.ToolRow? ==> row.tool < more) && (row.ApprovalRow? ==> row.approvalTool < more)
    ensures InRange(rows + [row], more)
  {
    forall r | r in rows + [row] ensures r in rows || r == row {
    }
  }

  lemma ResultKeepsRange(st: Projection, id: string, content: JsonValue, isError: bool, key: nat)
    requires InRange(st.rows, |st.tools|)
    ensures var next := AddResult(st, id, content, isError, key); InRange(next.rows, |next.tools|)
  {
    RangeGrows(st.rows, ToolRow(|st.tools|), |st.tools|, |st.tools| + 1);
  }

  lemma AskKeepsRange(st: Projection, item: Item)
    requires InRange(st.rows, |st.tools|) && item.EventItem?
    ensures InRange(AddAsk(st, item).rows, |AddAsk(st, item).tools|)
  {
    RangeGrows(st.rows, AddAsk(st, item).rows[|st.rows|], |st.tools|, |st.tools|);
  }

  lemma PlaceKeepsRange(st: Projection, item: Item)
    requires InRange(st.rows, |st.tools|)
    ensures InRange(Place(st, item).rows, |Place(st, item).tools|)
  {
    if !item.EventItem? {
      RangeGrows(st.rows, ItemRow(item), |st.tools|, |st.tools|);
    } else if item.value.ToolCall? {
      RangeGrows(st.rows, ToolRow(|st.tools|), |st.tools|, |st.tools| + 1);
    } else if item.value.ToolResult? {
      var content := item.value.content;
      ResultKeepsRange(st, item.value.id, OutputContent(content), item.value.isError, item.key);
      var middle := AddResult(st, item.value.id, OutputContent(content), item.value.isError, item.key);
      RangeGrows(middle.rows, ImagesRow(item.key, OutputImages(content)), |middle.tools|, |middle.tools|);
    } else {
      AskKeepsRange(st, item);
    }
  }

  lemma StepKeepsRange(terminal: seq<nat>, st: Projection, item: Item)
    requires InRange(st.rows, |st.tools|)
    ensures InRange(Step(terminal, st, item).rows, |Step(terminal, st, item).tools|)
  {
    PlaceKeepsRange(Open(terminal, st, item), item);
  }

  lemma {:induction false} RunKeepsRange(terminal: seq<nat>, st: Projection, items: seq<Item>)
    requires InRange(st.rows, |st.tools|)
    ensures InRange(Run(terminal, st, items).rows, |Run(terminal, st, items).tools|)
    decreases |items|
  {
    if items != [] {
      StepKeepsRange(terminal, st, items[0]);
      RunKeepsRange(terminal, Step(terminal, st, items[0]), items[1..]);
    }
  }

  // ---------------------------------------------------------------- grouping

  /** Adds the next row to what has been grouped so far. */
  function Push(grouped: seq<Activity>, row: Activity): seq<Activity> {
    var n := |grouped| - 1;
    if row.Single? && Quiet(row.tool.status) && n >= 0 && grouped[n].Group? then
      grouped[..n] + [grouped[n].(tools := grouped[n].tools + [row.tool])]
    else if row.Single? && Quiet(row.tool.status) && n >= 0 && Joins(grouped[n]) then
      grouped[..n] + [Group(grouped[n].tool.key, [grouped[n].tool, row.tool])]
    else grouped + [row]
  }

  function GroupRows(rows: seq<Activity>): seq<Activity> {
    if rows == [] then [] else Push(GroupRows(rows[..|rows| - 1]), rows[|rows| - 1])
  }

  /** The list the program displays. */
  function Display(terminal: seq<nat>, items: seq<Item>): seq<Activity> {
    RunKeepsRange(terminal, EMPTY, items);
    var st := Project(terminal, items);
    GroupRows(Ungrouped(st.rows, st.tools, st.attached))
  }

  /** The rows shown after one more row, unless an approval shows it already. */
  function PushShown(tools: seq<Tool>, attached: set<nat>, shown: seq<Activity>, row: Row): seq<Activity>
    requires row.ToolRow? ==> row.tool < |tools|
    requires row.ApprovalRow? ==> row.approvalTool < |tools|
  {
    if row.ToolRow? && row.tool in attached then shown else Push(shown, Resolve(tools, row))
  }

  /** The first `i` rows are shown as `shown`. */
  ghost predicate GroupsTo(rows: seq<Row>, tools: seq<Tool>, attached: set<nat>, i: nat, shown: seq<Activity>) {
    InRange(rows, |tools|) && i <= |rows| && GroupRows(Ungrouped(rows[..i], tools, attached)) == shown
  }

  ghost function GroupsOn(rows: seq<Row>, tools: seq<Tool>, attached: set<nat>, i: nat, shown: seq<Activity>)
    : (next: seq<Activity>)
    requires GroupsTo(rows, tools, attached, i, shown) && i < |rows|
    ensures next == PushShown(tools, attached, shown, rows[i]) && GroupsTo(rows, tools, attached, i + 1, next)
  {
    var before := Ungrouped(rows[..i], tools, attached);
    assert rows[..i + 1][..i] == rows[..i];
    if rows[i].ToolRow? && rows[i].tool in attached then shown
    else
      GroupRowsSnoc(before, Resolve(tools, rows[i]));
      Push(shown, Resolve(tools, rows[i]))
  }

  // ---------------------------------------------------------------- what grouping means

  function Singles(tools: seq<Tool>): (rows: seq<Activity>)
    ensures |rows| == |tools|
    ensures forall i | 0 <= i < |rows| :: rows[i] == Single(tools[i])
  {
    seq(|tools|, i requires 0 <= i < |tools| => Single(tools[i]))
  }

  function Members(row: Activity): seq<Activity> {
    if row.Group? then Singles(row.tools) else [row]
  }

  function Flatten(rows: seq<Activity>): seq<Activity> {
    if rows == [] then [] else Flatten(rows[..|rows| - 1]) + Members(rows[|rows| - 1])
  }

  ghost predicate NoGroups(rows: seq<Activity>) {
    forall r | r in rows :: !r.Group?
  }

  /** At least two tools, all quiet, under the key of the first. */
  ghost predicate ProperGroup(row: Activity) {
    row.Group? ==>
      |row.tools| >= 2 && row.key == row.tools[0].key && (forall t | t in row.tools :: Quiet(t.status))
  }

  /** Every group is proper and no two neighbours could still be merged. */
  ghost predicate WellGrouped(rows: seq<Activity>) {
    && (forall i | 0 <= i < |rows| :: ProperGroup(rows[i]))
    && (forall i | 0 <= i < |rows| - 1 :: !(Joins(rows[i]) && Joins(rows[i + 1])))
  }

  lemma FlattenSnoc(rows: seq<Activity>, row: Activity)
    ensures Flatten(rows + [row]) == Flatten(rows) + Members(row)
  {
    assert (rows + [row])[..|rows|] == rows;
  }

  /** The row that takes the place of a row which a quiet tool joins. */
  lemma MergedMembers(before: Activity, row: Activity) returns (merged: Activity)
    requires row.Single? && Quiet(row.tool.status) && Joins(before)
    ensures forall front :: Push(front + [before], row) == front + [merged]
    ensures Members(merged) == Members(before) + [row]
  {
    merged := if before.Group? then before.(tools := before.tools + [row.tool])
              else Group(before.tool.key, [before.tool, row.tool]);
  }

  lemma PushFlattens(grouped: seq<Activity>, row: Activity)
    requires !row.Group?
    ensures Flatten(Push(grouped, row)) == Flatten(grouped) + [row]
  {
    if row.Single? && Quiet(row.tool.status) && grouped != [] && Joins(grouped[|grouped| - 1]) {
      var front, last := grouped[..|grouped| - 1], grouped[|grouped| - 1];
      var merged := MergedMembers(last, row);
      LastSplits(grouped);
      FlattenSnoc(front, merged);
      Associates(Flatten(front), Members(last), [row]);
    } else {
      FlattenSnoc(grouped, row);
    }
  }

  lemma PushIsProper(grouped: seq<Activity>, row: Activity)
    requires WellGrouped(grouped) && !row.Group?
    ensures WellGrouped(Push(grouped, row))
  {
    var n := |grouped| - 1;
    if row.Single? && Quiet(row.tool.status) && n >= 0 && Joins(grouped[n]) {
      var merged := Push(grouped, row)[n];
      assert Push(grouped, row) == grouped[n := merged];
      assert ProperGroup(grouped[n]);
      assert ProperGroup(merged);
    }
  }

  /** Grouping loses nothing, reorders nothing, and leaves nothing to merge. */
  lemma {:induction false} GroupRowsIsProper(rows: seq<Activity>)
    requires NoGroups(rows)
    ensures WellGrouped(GroupRows(rows))
    ensures Flatten(GroupRows(rows)) == rows
  {
    if rows != [] {
      var front, last := rows[..|rows| - 1], rows[|rows| - 1];
      assert rows == front + [last] && last in rows;
      GroupRowsIsProper(front);
      PushIsProper(GroupRows(front), last);
      PushFlattens(GroupRows(front), last);
    }
  }

  lemma GroupRowsSnoc(rows: seq<Activity>, row: Activity)
    ensures GroupRows(rows + [row]) == Push(GroupRows(rows), row)
  {
    assert (rows + [row])[..|rows|] == rows;
  }

  lemma PushTwo(grouped: seq<Activity>, a: Tool, b: Tool)
    requires Quiet(a.status) && Quiet(b.status)
    requires grouped != [] ==> !Joins(grouped[|grouped| - 1])
    ensures Push(Push(grouped, Single(a)), Single(b)) == grouped + [Group(a.key, [a, b])]
  {
    assert Push(grouped, Single(a)) == grouped + [Single(a)];
  }

  lemma PushMore(grouped: seq<Activity>, group: Activity, tool: Tool)
    requires group.Group? && Quiet(tool.status)
    ensures Push(grouped + [group], Single(tool)) == grouped + [group.(tools := group.tools + [tool])]
  {
  }

  function PushAll(grouped: seq<Activity>, tools: seq<Tool>): seq<Activity> {
    if tools == [] then grouped
    else Push(PushAll(grouped, tools[..|tools| - 1]), Single(tools[|tools| - 1]))
  }

  lemma SinglesSnoc(front: seq<Activity>, tools: seq<Tool>)
    requires tools != []
    ensures front + Singles(tools) == front + Singles(tools[..|tools| - 1]) + [Single(tools[|tools| - 1])]
  {
  }

  lemma {:induction false} GroupRowsOfSingles(front: seq<Activity>, tools: seq<Tool>)
    ensures GroupRows(front + Singles(tools)) == PushAll(GroupRows(front), tools)
  {
    if tools == [] {
      assert front + Singles(tools) == front;
    } else {
      var n := |tools| - 1;
      GroupRowsOfSingles(front, tools[..n]);
      SinglesSnoc(front, tools);
      GroupRowsSnoc(front + Singles(tools[..n]), Single(tools[n]));
    }
  }

  lemma {:induction false} PushAllMakesOneGroup(grouped: seq<Activity>, tools: seq<Tool>)
    requires |tools| >= 2 && forall i | 0 <= i < |tools| :: Quiet(tools[i].status)
    requires grouped != [] ==> !Joins(grouped[|grouped| - 1])
    ensures PushAll(grouped, tools) == grouped + [Group(tools[0].key, tools)]
  {
    var n := |tools| - 1;
    assert tools == tools[..n] + [tools[n]];
    if n == 1 {
      assert tools[..1] == [tools[0]] && tools[..1][..0] == [];
      PushTwo(grouped, tools[0], tools[1]);
      assert PushAll(grouped, tools[..1]) == Push(PushAll(grouped, []), Single(tools[0]));
      assert tools == [tools[0], tools[1]];
    } else {
      PushAllMakesOneGroup(grouped, tools[..n]);
      PushMore(grouped, Group(tools[0].key, tools[..n]), tools[n]);
    }
  }

  lemma GroupIsRebuilt(front: seq<Activity>, tools: seq<Tool>)
    requires |tools| >= 2 && forall i | 0 <= i < |tools| :: Quiet(tools[i].status)
    requires GroupRows(front) != [] ==> !Joins(GroupRows(front)[|GroupRows(front)| - 1])
    ensures GroupRows(front + Singles(tools)) == GroupRows(front) + [Group(tools[0].key, tools)]
  {
    GroupRowsOfSingles(front, tools);
    PushAllMakesOneGroup(GroupRows(front), tools);
  }

  lemma LastIsPushed(rows: seq<Activity>, last: Activity)
    requires ProperGroup(last)
    requires GroupRows(rows) != [] ==> !(Joins(GroupRows(rows)[|GroupRows(rows)| - 1]) && Joins(last))
    ensures GroupRows(rows + Members(last)) == GroupRows(rows) + [last]
  {
    if last.Group? {
      assert forall i | 0 <= i < |last.tools| :: last.tools[i] in last.tools;
      GroupIsRebuilt(rows, last.tools);
    } else {
      GroupRowsSnoc(rows, last);
    }
  }

  lemma FrontIsGrouped(front: seq<Activity>, last: Activity)
    requires WellGrouped(front + [last])
    ensures WellGrouped(front) && ProperGroup(last)
    ensures front != [] ==> !(Joins(front[|front| - 1]) && Joins(last))
  {
    var n, grouped := |front|, front + [last];
    assert grouped[n] == last && ProperGroup(grouped[n]);
    forall i | 0 <= i < n ensures grouped[i] == front[i] && ProperGroup(front[i]) {
    }
    assert n > 0 ==> !(Joins(grouped[n - 1]) && Joins(grouped[n - 1 + 1]));
  }

  /** The grouping is the only one: any well-grouped list with the same members is the displayed one. */
  lemma {:induction false} GroupingIsUnique(grouped: seq<Activity>)
    requires WellGrouped(grouped)
    ensures GroupRows(Flatten(grouped)) == grouped
  {
    if grouped != [] {
      var front, last := grouped[..|grouped| - 1], grouped[|grouped| - 1];
      LastSplits(grouped);
      FrontIsGrouped(front, last);
      GroupingIsUnique(front);
      LastIsPushed(Flatten(front), last);
    }
  }

  // ---------------------------------------------------------------- the displayed list

  lemma {:induction false} UngroupedHasNoGroups(rows: seq<Row>, tools: seq<Tool>, attached: set<nat>)
    requires InRange(rows, |tools|)
    ensures NoGroups(Ungrouped(rows, tools, attached))
  {
    if rows != [] {
      UngroupedHasNoGroups(rows[..|rows| - 1], tools, attached);
    }
  }

  /** Flattening the display gives back the rows of the pass, less the tools shown with an approval. */
  lemma DisplayFlattens(terminal: seq<nat>, items: seq<Item>)
    ensures var st := Project(terminal, items);
      InRange(st.rows, |st.tools|)
      && Flatten(Display(terminal, items)) == Ungrouped(st.rows, st.tools, st.attached)
    ensures WellGrouped(Display(terminal, items))
  {
    RunKeepsRange(terminal, EMPTY, items);
    var st := Project(terminal, items);
    UngroupedHasNoGroups(st.rows, st.tools, st.attached);
    GroupRowsIsProper(Ungrouped(st.rows, st.tools, st.attached));
  }
}
