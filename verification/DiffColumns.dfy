/** Laying a diff out in two columns: runs of changed lines are paired, removed against added. */
module DiffColumns {
  import opened Options
  import opened GitDiff
  import opened Sequences

  datatype Row = Row(left: Option<DiffLine>, right: Option<DiffLine>, heading: Option<DiffLine>)

  predicate Changed(line: DiffLine) {
    line.kind == Removed || line.kind == Added
  }

  /** How many changed lines `lines` starts with. */
  function RunLength(lines: seq<DiffLine>): (n: nat)
    ensures n <= |lines|
    ensures forall i | 0 <= i < n :: Changed(lines[i])
    ensures n < |lines| ==> !Changed(lines[n])
  {
    if lines == [] || !Changed(lines[0]) then 0 else 1 + RunLength(lines[1..])
  }

  /** The lines of one kind, in order. */
  function Only(lines: seq<DiffLine>, kind: Kind): seq<DiffLine> {
    if lines == [] then []
    else
      Only(lines[..|lines| - 1], kind)
      + (if lines[|lines| - 1].kind == kind then [lines[|lines| - 1]] else [])
  }

  /** The lines of every other kind, in order. */
  function Without(lines: seq<DiffLine>, kind: Kind): seq<DiffLine> {
    if lines == [] then []
    else (if lines[0].kind == kind then [] else [lines[0]]) + Without(lines[1..], kind)
  }

  function Cell(lines: seq<DiffLine>, j: nat): Option<DiffLine> {
    if j < |lines| then Some(lines[j]) else None
  }

  function Max(a: nat, b: nat): nat {
    if a >= b then a else b
  }

  /** Row j pairs the j-th removed line with the j-th added line; the shorter side runs out first. */
  function Paired(removed: seq<DiffLine>, added: seq<DiffLine>): (rows: seq<Row>)
    ensures |rows| == Max(|removed|, |added|)
    ensures forall j | 0 <= j < |rows| :: rows[j] == Row(Cell(removed, j), Cell(added, j), None)
  {
    seq(Max(|removed|, |added|), j requires 0 <= j => Row(Cell(removed, j), Cell(added, j), None))
  }

  function LoneRow(line: DiffLine): Row {
    if line.kind == Context then Row(Some(line), Some(line), None) else Row(None, None, Some(line))
  }

  /** The two-column layout. */
  function Rows(lines: seq<DiffLine>): seq<Row>
    decreases |lines|
  {
    if lines == [] then []
    else
      var n := RunLength(lines);
      if n == 0 then [LoneRow(lines[0])] + Rows(lines[1..])
      else Paired(Only(lines[..n], Removed), Only(lines[..n], Added)) + Rows(lines[n..])
  }

  // ---------------------------------------------------------------- the loop

  lemma {:induction false} RunContinues(lines: seq<DiffLine>, n: nat)
    requires n <= |lines| && forall i | 0 <= i < n :: Changed(lines[i])
    requires n < |lines| ==> !Changed(lines[n])
    ensures RunLength(lines) == n
  {
    if n > 0 {
      RunContinues(lines[1..], n - 1);
    }
  }

  /** Gathers one run of changed lines into its two sides. */
  method TakeRun(lines: seq<DiffLine>, start: nat) returns (removed: seq<DiffLine>, added: seq<DiffLine>, i: nat)
    requires start < |lines|
    ensures var n := RunLength(lines[start..]);
      i == start + n && removed == Only(lines[start..][..n], Removed) && added == Only(lines[start..][..n], Added)
  {
    removed, added, i := [], [], start;
    while i < |lines| && Changed(lines[i])
      invariant start <= i <= |lines|
      invariant forall k | start <= k < i :: Changed(lines[k])
      invariant removed == Only(lines[start..][..i - start], Removed)
      invariant added == Only(lines[start..][..i - start], Added)
    {
      var item := lines[i];
      assert lines[start..][..i + 1 - start][..i - start] == lines[start..][..i - start];
      assert lines[start..][i - start] == item;
      if item.kind == Removed {
        removed := removed + [item];
      } else {
        added := added + [item];
      }
      i := i + 1;
    }
    RunContinues(lines[start..], i - start);
  }

  /** Pushes the rows that pair two sides. */
  method PushPairs(rows: seq<Row>, removed: seq<DiffLine>, added: seq<DiffLine>) returns (longer: seq<Row>)
    ensures longer == rows + Paired(removed, added)
  {
    longer := rows;
    ghost var pairs := Paired(removed, added);
    var count := Max(|removed|, |added|);
    for j := 0 to count
      invariant longer == rows + pairs[..j]
    {
      longer := longer + [Row(Cell(removed, j), Cell(added, j), None)];
    }
    assert pairs[..count] == pairs;
  }

  /** `rows` is laid out and `rest` is not: together they give `layout`. */
  ghost predicate LaidOut(rows: seq<Row>, rest: seq<DiffLine>, layout: seq<Row>) {
    rows + Rows(rest) == layout
  }

  lemma LaidOutLone(rows: seq<Row>, line: DiffLine, rest: seq<DiffLine>, layout: seq<Row>)
    requires !Changed(line) && LaidOut(rows, [line] + rest, layout)
    ensures LaidOut(rows + [LoneRow(line)], rest, layout)
  {
    assert ([line] + rest)[1..] == rest;
    assert Rows([line] + rest) == [LoneRow(line)] + Rows(rest);
  }

  lemma LaidOutRun(rows: seq<Row>, lines: seq<DiffLine>, n: nat, layout: seq<Row>)
    requires 0 < n == RunLength(lines) && LaidOut(rows, lines, layout)
    ensures LaidOut(rows + Paired(Only(lines[..n], Removed), Only(lines[..n], Added)), lines[n..], layout)
  {
    Associates(rows, Paired(Only(lines[..n], Removed), Only(lines[..n], Added)), Rows(lines[n..]));
  }

  /** What one run adds to the rows. */
  lemma LaidOutTo(rows: seq<Row>, lines: seq<DiffLine>, i: nat, next: nat, layout: seq<Row>)
    requires i < next <= |lines| && next == i + RunLength(lines[i..]) && LaidOut(rows, lines[i..], layout)
    ensures var run := lines[i..][..next - i];
      LaidOut(rows + Paired(Only(run, Removed), Only(run, Added)), lines[next..], layout)
  {
    LaidOutRun(rows, lines[i..], next - i, layout);
    DropDrop(lines, i, next);
  }

  method SplitDiff(lines: seq<DiffLine>) returns (rows: seq<Row>)
    ensures rows == Rows(lines)
  {
    rows := [];
    ghost var layout := Rows(lines);
    var i := 0;
    while i < |lines|
      invariant i <= |lines| && LaidOut(rows, lines[i..], layout)
    {
      if Changed(lines[i]) {
        var removed, added, next := TakeRun(lines, i);
        LaidOutTo(rows, lines, i, next, layout);
        rows := PushPairs(rows, removed, added);
        i := next;
      } else {
        DropSplits(lines, i);
        LaidOutLone(rows, lines[i], lines[i + 1..], layout);
        rows := rows + [LoneRow(lines[i])];
        i := i + 1;
      }
    }
  }

  // ---------------------------------------------------------------- conservation

  datatype Side = Left | Right

  /** What a row shows on one side: its heading, or else that side's line, or nothing. */
  function Shown(row: Row, side: Side): seq<DiffLine> {
    if row.heading.Some? then [row.heading.value]
    else if side == Left then (if row.left.Some? then [row.left.value] else [])
    else (if row.right.Some? then [row.right.value] else [])
  }

  /** One column from top to bottom, headings included. */
  function Column(rows: seq<Row>, side: Side): seq<DiffLine> {
    if rows == [] then [] else Column(rows[..|rows| - 1], side) + Shown(rows[|rows| - 1], side)
  }

  /** The kind of line a side shows, and the kind it leaves to the other side. */
  function Own(side: Side): Kind {
    if side == Left then Removed else Added
  }

  function Foreign(side: Side): Kind {
    if side == Left then Added else Removed
  }

  lemma ColumnGrows(rows: seq<Row>, row: Row, side: Side)
    ensures Column(rows + [row], side) == Column(rows, side) + Shown(row, side)
  {
    assert (rows + [row])[..|rows|] == rows;
  }

  lemma {:induction false} ColumnAppend(a: seq<Row>, b: seq<Row>, side: Side)
    ensures Column(a + b, side) == Column(a, side) + Column(b, side)
    decreases |b|
  {
    if b == [] {
      assert a + b == a;
    } else {
      var front, last := b[..|b| - 1], b[|b| - 1];
      ColumnAppend(a, front, side);
      FrontOfSum(a, b);
      Associates(Column(a, side), Column(front, side), Shown(last, side));
    }
  }

  function Prefix(own: seq<DiffLine>, j: nat): seq<DiffLine> {
    if j <= |own| then own[..j] else own
  }

  lemma PrefixNext(own: seq<DiffLine>, j: nat)
    ensures Prefix(own, j + 1) == Prefix(own, j) + (if j < |own| then [own[j]] else [])
  {
  }

  lemma PairShows(removed: seq<DiffLine>, added: seq<DiffLine>, j: nat, side: Side)
    requires j < Max(|removed|, |added|)
    ensures var own := if side == Left then removed else added;
      Shown(Paired(removed, added)[j], side) == (if j < |own| then [own[j]] else [])
  {
  }

  lemma {:induction false} PairedColumn(removed: seq<DiffLine>, added: seq<DiffLine>, j: nat, side: Side)
    requires j <= Max(|removed|, |added|)
    ensures Column(Paired(removed, added)[..j], side) == Prefix(if side == Left then removed else added, j)
    decreases j
  {
    if j > 0 {
      var pairs := Paired(removed, added);
      PairedColumn(removed, added, j - 1, side);
      PrefixGrows(pairs, j - 1);
      ColumnGrows(pairs[..j - 1], pairs[j - 1], side);
      PairShows(removed, added, j - 1, side);
      PrefixNext(if side == Left then removed else added, j - 1);
    }
  }

  lemma {:induction false} WithoutAppend(a: seq<DiffLine>, b: seq<DiffLine>, kind: Kind)
    ensures Without(a + b, kind) == Without(a, kind) + Without(b, kind)
    decreases |a|
  {
    if a == [] {
      assert a + b == b;
    } else {
      WithoutAppend(a[1..], b, kind);
      TailOfSum(a, b);
      Associates(if a[0].kind == kind then [] else [a[0]], Without(a[1..], kind), Without(b, kind));
    }
  }

  lemma {:induction false} RunSide(lines: seq<DiffLine>, side: Side)
    requires forall i | 0 <= i < |lines| :: Changed(lines[i])
    ensures Without(lines, Foreign(side)) == Only(lines, Own(side))
  {
    if lines != [] {
      var front, last := lines[..|lines| - 1], lines[|lines| - 1];
      RunSide(front, side);
      WithoutAppend(front, [last], Foreign(side));
      assert lines == front + [last];
    }
  }

  lemma LoneColumn(line: DiffLine, side: Side)
    requires !Changed(line)
    ensures Column([LoneRow(line)], side) == [line] == Without([line], Foreign(side))
  {
    assert [LoneRow(line)][..0] == [];
  }

  lemma RunColumn(run: seq<DiffLine>, side: Side)
    requires forall i | 0 <= i < |run| :: Changed(run[i])
    ensures Column(Paired(Only(run, Removed), Only(run, Added)), side) == Without(run, Foreign(side))
  {
    var removed, added := Only(run, Removed), Only(run, Added);
    var rows, m := Paired(removed, added), Max(|removed|, |added|);
    RunSide(run, side);
    PairedColumn(removed, added, m, side);
    assert rows[..m] == rows;
  }

  /** The rows made first, the lines they come from, and the lines still to lay out. */
  lemma FirstRows(lines: seq<DiffLine>, side: Side) returns (top: seq<Row>, front: seq<DiffLine>, rest: seq<DiffLine>)
    requires lines != []
    ensures lines == front + rest && |rest| < |lines|
    ensures Rows(lines) == top + Rows(rest)
    ensures Column(top, side) == Without(front, Foreign(side))
  {
    var n := RunLength(lines);
    if n == 0 {
      top, front, rest := [LoneRow(lines[0])], [lines[0]], lines[1..];
      LoneColumn(lines[0], side);
    } else {
      front, rest := lines[..n], lines[n..];
      top := Paired(Only(front, Removed), Only(front, Added));
      RunColumn(front, side);
    }
  }

  /**
   * Neither side loses, repeats or reorders a line, whatever the mix of runs: the left column is the input
   * without the added lines and the right column is the input without the removed ones.
   */
  lemma {:induction false} ColumnsConserveLines(lines: seq<DiffLine>, side: Side)
    ensures Column(Rows(lines), side) == Without(lines, Foreign(side))
    decreases |lines|
  {
    if lines != [] {
      var top, front, rest := FirstRows(lines, side);
      ColumnsConserveLines(rest, side);
      ColumnAppend(top, Rows(rest), side);
      WithoutAppend(front, rest, Foreign(side));
    }
  }

  /** A row of the layout: a heading alone, one context line on both sides, or a change with at least one side. */
  ghost predicate ProperRow(row: Row) {
    || (row.heading.Some? && row.left == None && row.right == None
        && row.heading.value.kind != Context && !Changed(row.heading.value))
    || (row.heading == None && row.left.Some? && row.left == row.right && row.left.value.kind == Context)
    || (row.heading == None && (row.left.Some? || row.right.Some?)
        && (row.left.Some? ==> row.left.value.kind == Removed) && (row.right.Some? ==> row.right.value.kind == Added))
  }

  lemma {:induction false} OnlyHasKind(lines: seq<DiffLine>, kind: Kind)
    ensures forall l | l in Only(lines, kind) :: l.kind == kind
  {
    if lines != [] {
      OnlyHasKind(lines[..|lines| - 1], kind);
    }
  }

  lemma {:induction false} RowsAreProper(lines: seq<DiffLine>)
    ensures forall row | row in Rows(lines) :: ProperRow(row)
    decreases |lines|
  {
    if lines != [] {
      var n := RunLength(lines);
      if n == 0 {
        RowsAreProper(lines[1..]);
      } else {
        RowsAreProper(lines[n..]);
        OnlyHasKind(lines[..n], Removed);
        OnlyHasKind(lines[..n], Added);
      }
    }
  }
}
