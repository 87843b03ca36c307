/** What makes two columns the layout of a diff: no other rows have the same properties. */
module DiffLayout {
  import opened Options
  import opened GitDiff
  import opened Sequences
  import opened DiffColumns

  /** A row of changed lines: neither a heading nor an unchanged line. */
  predicate IsChange(row: Row) {
    row.heading.None? && !(row.left.Some? && row.left.value.kind == Context)
  }

  function On(row: Row, side: Side): Option<DiffLine> {
    if side == Left then row.left else row.right
  }

  ghost predicate Follows(row: Row, next: Row) {
    IsChange(row) && IsChange(next) ==>
      (row.left.None? ==> next.left.None?) && (row.right.None? ==> next.right.None?)
  }

  /** Within a stretch of changed rows a side that has run out stays empty: its lines stand as high as they can. */
  ghost predicate Tight(rows: seq<Row>) {
    forall i, j | 0 <= i < j < |rows| && j == i + 1 :: Follows(rows[i], rows[j])
  }

  /** Proper rows that leave no gap. */
  ghost predicate Laid(rows: seq<Row>) {
    (forall row | row in rows :: ProperRow(row)) && Tight(rows)
  }

  // ---------------------------------------------------------------- the layout leaves no gap

  lemma TightSum(a: seq<Row>, b: seq<Row>)
    requires Tight(a) && Tight(b)
    requires a == [] || b == [] || !IsChange(a[|a| - 1]) || !IsChange(b[0])
    ensures Tight(a + b)
  {
    var both := a + b;
    forall i, j | 0 <= i < j < |both| && j == i + 1 ensures Follows(both[i], both[j]) {
      if j < |a| {
        assert both[i] == a[i] && both[j] == a[j];
      } else if i >= |a| {
        assert both[i] == b[i - |a|] && both[j] == b[j - |a|];
      }
    }
  }

  lemma StartsAlone(lines: seq<DiffLine>)
    requires lines != [] ==> !Changed(lines[0])
    ensures Rows(lines) != [] ==> !IsChange(Rows(lines)[0])
  {
  }

  lemma {:induction false} RowsAreTight(lines: seq<DiffLine>)
    ensures Tight(Rows(lines))
    decreases |lines|
  {
    if lines != [] {
      var n := RunLength(lines);
      if n == 0 {
        RowsAreTight(lines[1..]);
        TightSum([LoneRow(lines[0])], Rows(lines[1..]));
      } else {
        RowsAreTight(lines[n..]);
        StartsAlone(lines[n..]);
        TightSum(Paired(Only(lines[..n], Removed), Only(lines[..n], Added)), Rows(lines[n..]));
      }
    }
  }

  // ---------------------------------------------------------------- the columns tell the rows

  lemma ColumnFront(rows: seq<Row>, side: Side)
    requires rows != []
    ensures Column(rows, side) == Shown(rows[0], side) + Column(rows[1..], side)
  {
    DropSplits(rows, 0);
    ColumnAppend([rows[0]], rows[1..], side);
    assert [rows[0]][..0] == [];
  }

  /** Under a changed row that is empty on one side, that side's next line is none of its changed lines. */
  lemma {:induction false} RunsOut(rows: seq<Row>, side: Side)
    requires Laid(rows) && rows != [] && IsChange(rows[0]) && On(rows[0], side) == None
    ensures Column(rows, side) == [] || Column(rows, side)[0].kind != Own(side)
    decreases |rows|
  {
    var rest := rows[1..];
    ColumnFront(rows, side);
    if rest != [] {
      assert Follows(rows[0], rows[1]);
      if IsChange(rest[0]) {
        RunsOut(rest, side);
      } else {
        ColumnFront(rest, side);
        assert ProperRow(rest[0]);
      }
    }
  }

  /** What a column starts with is what the first row shows there. */
  lemma FirstShows(rows: seq<Row>, side: Side)
    requires Laid(rows) && rows != []
    ensures var column := Column(rows, side);
      if rows[0].heading.Some? then column != [] && column[0] == rows[0].heading.value
      else if !IsChange(rows[0]) then column != [] && Some(column[0]) == On(rows[0], side)
      else On(rows[0], side) == if column != [] && column[0].kind == Own(side) then Some(column[0]) else None
  {
    ColumnFront(rows, side);
    assert ProperRow(rows[0]);
    if IsChange(rows[0]) && On(rows[0], side) == None {
      RunsOut(rows, side);
    }
  }

  /** Two layouts with the same columns start with the same row. */
  lemma SameFirst(a: seq<Row>, b: seq<Row>)
    requires Laid(a) && Laid(b) && a != [] && b != []
    requires Column(a, Left) == Column(b, Left) && Column(a, Right) == Column(b, Right)
    ensures a[0] == b[0]
  {
    FirstShows(a, Left);
    FirstShows(a, Right);
    FirstShows(b, Left);
    FirstShows(b, Right);
    assert ProperRow(a[0]) && ProperRow(b[0]);
  }

  /** Rows show something. */
  lemma SomethingShows(rows: seq<Row>)
    requires Laid(rows) && rows != []
    ensures Column(rows, Left) != [] || Column(rows, Right) != []
  {
    FirstShows(rows, Left);
    FirstShows(rows, Right);
    assert ProperRow(rows[0]);
  }

  lemma RestIsLaid(rows: seq<Row>)
    requires Laid(rows) && rows != []
    ensures Laid(rows[1..])
  {
    var rest := rows[1..];
    forall i, j | 0 <= i < j < |rest| && j == i + 1 ensures Follows(rest[i], rest[j]) {
      assert rest[i] == rows[i + 1] && rest[j] == rows[j + 1];
    }
  }

  lemma RestShowsTheSame(a: seq<Row>, b: seq<Row>, side: Side)
    requires a != [] && b != [] && a[0] == b[0]
    requires Column(a, side) == Column(b, side)
    ensures Column(a[1..], side) == Column(b[1..], side)
  {
    ColumnFront(a, side);
    ColumnFront(b, side);
    var n := |Shown(a[0], side)|;
    assert Column(a, side)[n..] == Column(a[1..], side);
    assert Column(b, side)[n..] == Column(b[1..], side);
  }

  lemma {:induction false} ColumnsTellRows(a: seq<Row>, b: seq<Row>)
    requires Laid(a) && Laid(b)
    requires Column(a, Left) == Column(b, Left) && Column(a, Right) == Column(b, Right)
    ensures a == b
    decreases |a|
  {
    if a != [] && b != [] {
      SameFirst(a, b);
      RestIsLaid(a);
      RestIsLaid(b);
      RestShowsTheSame(a, b, Left);
      RestShowsTheSame(a, b, Right);
      ColumnsTellRows(a[1..], b[1..]);
      DropSplits(a, 0);
      DropSplits(b, 0);
    } else if a != [] {
      SomethingShows(a);
    } else if b != [] {
      SomethingShows(b);
    }
  }

  /**
   * Rows are the layout of a diff if and only if every row is proper, no side leaves a gap within a stretch of
   * changed rows, and the columns show the lines of their side in order. So a removed line stands beside an added one
   * if and only if both have the same place among their kind in one run.
   */
  lemma LayoutIff(lines: seq<DiffLine>, rows: seq<Row>)
    ensures rows == Rows(lines) <==>
      && (forall row | row in rows :: ProperRow(row))
      && Tight(rows)
      && Column(rows, Left) == Without(lines, Added)
      && Column(rows, Right) == Without(lines, Removed)
  {
    RowsAreProper(lines);
    RowsAreTight(lines);
    ColumnsConserveLines(lines, Left);
    ColumnsConserveLines(lines, Right);
    if Laid(rows) && Column(rows, Left) == Without(lines, Added) && Column(rows, Right) == Without(lines, Removed) {
      ColumnsTellRows(rows, Rows(lines));
    }
  }
}
