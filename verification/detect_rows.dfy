/**
 Finding the table on a sheet (nodes/google_sheets_exec.go): the empty rows
 above it, the dropped columns, and the empty rows inside or everything from
 the first of them on are left out, in place in one array.
 */
module DetectRows {
  import opened Sheets

  datatype NumberedRow = NumberedRow(number: int, cells: Row)

  predicate Empty(row: NumberedRow) { EmptyRow(row.cells) }

  function Width(rows: seq<NumberedRow>): nat {
    if rows == [] then 0 else
    var before := Width(rows[..|rows| - 1]);
    if |rows[|rows| - 1].cells| > before then |rows[|rows| - 1].cells| else before
  }

  predicate HasData(rows: seq<NumberedRow>, c: nat) {
    exists r :: 1 <= r < |rows| && c < |rows[r].cells| && !EmptyCell(rows[r].cells[c])
  }

  /** The column has a heading, which is empty text, and no row below has a cell of it that holds something. */
  predicate Dropped(rows: seq<NumberedRow>, c: nat)
    requires rows != []
  {
    c < |rows[0].cells| && rows[0].cells[c] == Text("") && !HasData(rows, c)
  }

  /** The columns that are kept, of the first n. */
  function Columns(rows: seq<NumberedRow>, n: nat): (columns: seq<nat>)
    requires n > 0 ==> rows != []
    ensures forall p :: 0 <= p < |columns| ==> columns[p] < n
  {
    if n == 0 then [] else Columns(rows, n - 1) + if Dropped(rows, n - 1) then [] else [n - 1]
  }

  function CellOrText(cells: Row, c: nat): Value { if c < |cells| then cells[c] else Text("") }

  function Narrow(row: NumberedRow, columns: seq<nat>): (r: NumberedRow)
    ensures r.number == row.number && |r.cells| == |columns|
    ensures forall p :: 0 <= p < |columns| ==> r.cells[p] == CellOrText(row.cells, columns[p])
  {
    NumberedRow(row.number, seq(|columns|, p requires 0 <= p < |columns| => CellOrText(row.cells, columns[p])))
  }

  function Narrowed(rows: seq<NumberedRow>): (r: seq<NumberedRow>)
    ensures |r| == |rows|
    ensures forall k :: 0 <= k < |rows| ==> r[k] == Narrow(rows[k], Columns(rows, Width(rows)))
  {
    WidthOfNone(rows);
    seq(|rows|, k requires 0 <= k < |rows| => Narrow(rows[k], Columns(rows, Width(rows))))
  }

  lemma WidthOfNone(rows: seq<NumberedRow>)
    ensures Width(rows) > 0 ==> rows != []
  {
  }

  function DropLeading(rows: seq<NumberedRow>): seq<NumberedRow> {
    if rows != [] && Empty(rows[0]) then DropLeading(rows[1..]) else rows
  }

  function NonEmpty(rows: seq<NumberedRow>): seq<NumberedRow> {
    if rows == [] then [] else
    NonEmpty(rows[..|rows| - 1]) + if Empty(rows[|rows| - 1]) then [] else [rows[|rows| - 1]]
  }

  function UntilEmpty(rows: seq<NumberedRow>): seq<NumberedRow> {
    if rows == [] || Empty(rows[0]) then [] else [rows[0]] + UntilEmpty(rows[1..])
  }

  function Rest(rows: seq<NumberedRow>, stop: bool): seq<NumberedRow> {
    if stop then UntilEmpty(rows) else NonEmpty(rows)
  }

  /** The rows from the first that is not empty on. */
  function Block(rows: seq<NumberedRow>, stop: bool): seq<NumberedRow> {
    var body := DropLeading(rows);
    if body == [] then [] else [body[0]] + Rest(body[1..], stop)
  }

  /** The table among the rows. */
  function Table(rows: seq<NumberedRow>, stop: bool): seq<NumberedRow> { Block(Narrowed(rows), stop) }

  // ----- The code -------------------------------------------------------------

  method MeasureWidth(rows: seq<NumberedRow>) returns (width: nat)
    ensures width == Width(rows)
  {
    width := 0;
    for k := 0 to |rows|
      invariant width == Width(rows[..k])
    {
      assert rows[..k + 1][..k] == rows[..k];
      if |rows[k].cells| > width {
        width := |rows[k].cells|;
      }
    }
    assert rows[..|rows|] == rows;
  }

  method KeptColumns(rows: seq<NumberedRow>, width: nat) returns (keep: seq<nat>)
    requires width > 0 ==> rows != []
    ensures keep == Columns(rows, width)
  {
    hide EmptyCell;
    keep := [];
    for column := 0 to width
      invariant keep == Columns(rows, column)
    {
      var first := rows[0].cells;
      if column < |first| && first[column] == Text("") {
        var hasData := false;
        for r := 1 to |rows|
          invariant hasData <==> exists k :: 1 <= k < r && column < |rows[k].cells| && !EmptyCell(rows[k].cells[column])
        {
          if column < |rows[r].cells| && !EmptyCell(rows[r].cells[column]) {
            hasData := true;
            break;
          }
        }
        if !hasData {
          continue;
        }
      }
      keep := keep + [column];
    }
  }

  /**
   Compacts the rows from start on, in place: each row is read before the
   place it stands in can be written, because a write never gets ahead of
   the reading.
   */
  method Compact(a: array<NumberedRow>, start: nat, stop: bool) returns (end: nat)
    requires start < a.Length
    modifies a
    ensures start < end <= a.Length && a[..start] == old(a[..start])
    ensures a[start..end] == [old(a[start])] + Rest(old(a[start + 1..]), stop)
  {
    hide Empty, Rest, NonEmpty;
    ghost var was := a[start + 1..];
    ghost var first := a[start];
    NonEmptyOfNone(was);
    end := start + 1;
    var r := start + 1;
    while r < a.Length
      invariant start + 1 <= end <= r <= a.Length
      invariant a[..start] == old(a[..start]) && a[start] == first
      invariant forall i :: r <= i < a.Length ==> a[i] == was[i - start - 1]
      invariant a[start + 1..end] == NonEmpty(was[..r - start - 1])
      invariant stop ==> forall k :: 0 <= k < r - start - 1 ==> !Empty(was[k])
    {
      ghost var k := r - start - 1;
      NonEmptyGrows(was, k);
      if Empty(a[r]) {
        if stop {
          StopsThere(was, k);
          break;
        }
      } else {
        a[end] := a[r];
        end := end + 1;
      }
      r := r + 1;
    }
    if r == a.Length {
      assert was[..r - start - 1] == was;
      NeverStops(was, stop);
    }
    assert a[start..end] == [first] + a[start + 1..end];
  }

  lemma NonEmptyOfNone(rows: seq<NumberedRow>)
    ensures NonEmpty(rows[..0]) == []
  {
  }

  lemma NonEmptyGrows(rows: seq<NumberedRow>, k: nat)
    requires k < |rows|
    ensures NonEmpty(rows[..k + 1]) == NonEmpty(rows[..k]) + if Empty(rows[k]) then [] else [rows[k]]
  {
    assert rows[..k + 1][..k] == rows[..k];
  }

  lemma {:induction false} AllNonEmpty(rows: seq<NumberedRow>, k: nat)
    requires k <= |rows| && forall i :: 0 <= i < k ==> !Empty(rows[i])
    ensures NonEmpty(rows[..k]) == rows[..k]
    decreases k
  {
    if k > 0 {
      AllNonEmpty(rows, k - 1);
      assert rows[..k][..k - 1] == rows[..k - 1];
    }
  }

  lemma {:induction false} UntilAt(rows: seq<NumberedRow>, k: nat)
    requires k <= |rows| && (forall i :: 0 <= i < k ==> !Empty(rows[i])) && (k < |rows| ==> Empty(rows[k]))
    ensures UntilEmpty(rows) == rows[..k]
    decreases k
  {
    if k > 0 {
      UntilAt(rows[1..], k - 1);
      assert rows[..k] == [rows[0]] + rows[1..][..k - 1];
    }
  }

  lemma StopsThere(rows: seq<NumberedRow>, k: nat)
    requires k < |rows| && Empty(rows[k]) && forall i :: 0 <= i < k ==> !Empty(rows[i])
    ensures Rest(rows, true) == NonEmpty(rows[..k])
  {
    AllNonEmpty(rows, k);
    UntilAt(rows, k);
  }

  lemma NeverStops(rows: seq<NumberedRow>, stop: bool)
    requires stop ==> forall i :: 0 <= i < |rows| ==> !Empty(rows[i])
    ensures Rest(rows, stop) == NonEmpty(rows)
  {
    if stop {
      AllNonEmpty(rows, |rows|);
      UntilAt(rows, |rows|);
      assert rows[..|rows|] == rows;
    }
  }

  method DetectDataRows(rows: seq<NumberedRow>, stop: bool) returns (table: seq<NumberedRow>)
    ensures table == Table(rows, stop)
  {
    hide Rest, Empty, Columns, Narrow;
    var width := MeasureWidth(rows);
    WidthOfNone(rows);
    var keep := KeptColumns(rows, width);
    var narrowed := new NumberedRow[|rows|](k requires 0 <= k < |rows| => Narrow(rows[k], keep));
    assert narrowed[..] == Narrowed(rows);
    var start := 0;
    while start < narrowed.Length && Empty(narrowed[start])
      invariant start <= narrowed.Length && narrowed[..] == Narrowed(rows)
      invariant DropLeading(narrowed[start..]) == DropLeading(Narrowed(rows))
    {
      assert narrowed[start..][1..] == narrowed[start + 1..];
      start := start + 1;
    }
    assert narrowed[start..] == DropLeading(Narrowed(rows));
    if start == narrowed.Length {
      return [];
    }
    ghost var body := narrowed[start..];
    assert body[1..] == narrowed[start + 1..];
    var end := Compact(narrowed, start, stop);
    table := narrowed[start..end];
  }

  // ----- What is kept -----------------------------------------------------------

  lemma {:induction false} WidthBounds(rows: seq<NumberedRow>, r: nat)
    requires r < |rows|
    ensures |rows[r].cells| <= Width(rows)
    decreases |rows|
  {
    if r < |rows| - 1 {
      WidthBounds(rows[..|rows| - 1], r);
    }
  }

  /** A column is kept unless its heading is empty text and nothing is below it. */
  lemma {:induction false} KeptIff(rows: seq<NumberedRow>, n: nat, c: nat)
    requires rows != []
    ensures c in Columns(rows, n) <==> c < n && !Dropped(rows, c)
    decreases n
  {
    hide Dropped;
    if n > 0 {
      KeptIff(rows, n - 1, c);
    }
  }

  lemma {:induction false} ColumnsAscend(rows: seq<NumberedRow>, n: nat)
    requires n > 0 ==> rows != []
    ensures var columns := Columns(rows, n); forall p, q :: 0 <= p < q < |columns| ==> columns[p] < columns[q]
    decreases n
  {
    hide Dropped;
    if n > 0 {
      ColumnsAscend(rows, n - 1);
      assert forall p :: 0 <= p < |Columns(rows, n - 1)| ==> Columns(rows, n)[p] == Columns(rows, n - 1)[p] < n - 1;
    }
  }

  /** Every cell that holds something keeps its place in its own row. */
  lemma CellKept(rows: seq<NumberedRow>, r: nat, c: nat) returns (p: nat)
    requires r < |rows| && c < |rows[r].cells| && !EmptyCell(rows[r].cells[c])
    ensures p < |Columns(rows, Width(rows))| && Columns(rows, Width(rows))[p] == c
    ensures Narrowed(rows)[r].cells[p] == rows[r].cells[c]
  {
    WidthBounds(rows, r);
    var columns := Columns(rows, Width(rows));
    assert !Dropped(rows, c) by {
      if r > 0 {
        assert HasData(rows, c);
      }
    }
    KeptIff(rows, Width(rows), c);
    p :| 0 <= p < |columns| && columns[p] == c;
  }

  /** Narrowing makes no row empty that was not. */
  lemma NarrowedEmptyIff(rows: seq<NumberedRow>, r: nat)
    requires r < |rows|
    ensures Empty(Narrowed(rows)[r]) <==> Empty(rows[r])
  {
    hide Narrow, Dropped;
    if !Empty(rows[r]) {
      var c: nat :| c < |rows[r].cells| && !EmptyCell(rows[r].cells[c]);
      var p := CellKept(rows, r, c);
      assert !EmptyCell(Narrowed(rows)[r].cells[p]);
    }
  }

  lemma {:induction false} NonEmptyHolds(rows: seq<NumberedRow>, r: nat)
    requires r < |rows| && !Empty(rows[r])
    ensures rows[r] in NonEmpty(rows)
    decreases |rows|
  {
    hide Empty;
    if r < |rows| - 1 {
      NonEmptyHolds(rows[..|rows| - 1], r);
    }
  }

  lemma DropLeadingHolds(rows: seq<NumberedRow>, r: nat)
    requires r < |rows| && !Empty(rows[r])
    ensures var body := DropLeading(rows);
      |body| <= |rows| && |rows| - |body| <= r && body == rows[|rows| - |body|..]
  {
    hide Empty;
    LeadingIsSuffix(rows);
  }

  /** Reading to the last row, every cell that holds something is in the table, under its own row number and column. */
  lemma EveryCellIsThere(rows: seq<NumberedRow>, r: nat, c: nat) returns (k: nat, p: nat)
    requires r < |rows| && c < |rows[r].cells| && !EmptyCell(rows[r].cells[c])
    ensures k < |Table(rows, false)| && Table(rows, false)[k].number == rows[r].number
    ensures p < |Columns(rows, Width(rows))| && Columns(rows, Width(rows))[p] == c
    ensures p < |Table(rows, false)[k].cells| && Table(rows, false)[k].cells[p] == rows[r].cells[c]
  {
    hide EmptyCell, Columns, Narrow, Block;
    p := CellKept(rows, r, c);
    assert !Empty(Narrowed(rows)[r]) by {
      assert !EmptyCell(Narrowed(rows)[r].cells[p]);
    }
    k := BlockHolds(Narrowed(rows), r);
  }

  /** Every row that is not empty is in the block. */
  lemma BlockHolds(rows: seq<NumberedRow>, r: nat) returns (k: nat)
    requires r < |rows| && !Empty(rows[r])
    ensures k < |Block(rows, false)| && Block(rows, false)[k] == rows[r]
  {
    hide Empty, DropLeading, NonEmpty;
    DropLeadingHolds(rows, r);
    var body := DropLeading(rows);
    var at := r - (|rows| - |body|);
    assert body[at] == rows[r];
    if at == 0 {
      k := 0;
    } else {
      NonEmptyHolds(body[1..], at - 1);
      assert body[1..][at - 1] == rows[r];
      var i :| 0 <= i < |NonEmpty(body[1..])| && NonEmpty(body[1..])[i] == rows[r];
      k := i + 1;
    }
  }

  predicate Ascending(rows: seq<NumberedRow>) { forall i, k :: 0 <= i < k < |rows| ==> rows[i].number < rows[k].number }

  lemma {:induction false} NonEmptyAscends(rows: seq<NumberedRow>)
    requires Ascending(rows)
    ensures Ascending(NonEmpty(rows))
    ensures forall k :: 0 <= k < |NonEmpty(rows)| ==> NonEmpty(rows)[k] in rows && !Empty(NonEmpty(rows)[k])
    decreases |rows|
  {
    hide Empty;
    if rows != [] {
      NonEmptyAscends(rows[..|rows| - 1]);
    }
  }

  /**
   And the table holds nothing else: its rows are non-empty rows of the sheet
   and its columns some of the sheet's, both in the sheet's order.
   */
  lemma OnlyRowsInOrder(rows: seq<NumberedRow>)
    requires Ascending(rows)
    ensures var table := Table(rows, false);
      Ascending(table) && forall k :: 0 <= k < |table| ==> table[k] in Narrowed(rows) && !Empty(table[k])
    ensures var columns := Columns(rows, Width(rows)); forall p, q :: 0 <= p < q < |columns| ==> columns[p] < columns[q]
  {
    hide Empty, Narrowed, Block;
    WidthOfNone(rows);
    ColumnsAscend(rows, Width(rows));
    assert Ascending(Narrowed(rows)) by {
      NarrowingKeepsOrder(rows);
    }
    BlockInOrder(Narrowed(rows));
  }

  lemma NarrowingKeepsOrder(rows: seq<NumberedRow>)
    requires Ascending(rows)
    ensures Ascending(Narrowed(rows))
  {
    hide Narrow, Columns;
  }

  lemma BlockInOrder(rows: seq<NumberedRow>)
    requires Ascending(rows)
    ensures var block := Block(rows, false);
      Ascending(block) && forall k :: 0 <= k < |block| ==> block[k] in rows && !Empty(block[k])
  {
    hide Empty;
    var block := Block(rows, false);
    LeadingIsSuffix(rows);
    var body := DropLeading(rows);
    if body != [] {
      NonEmptyAscends(body[1..]);
      forall k | 0 <= k < |block|
        ensures block[k] in rows && !Empty(block[k]) && (k > 0 ==> body[0].number < block[k].number)
      {
        if k > 0 {
          assert block[k] in body[1..];
        }
      }
    }
  }

  lemma {:induction false} LeadingIsSuffix(rows: seq<NumberedRow>)
    ensures |DropLeading(rows)| <= |rows| && DropLeading(rows) == rows[|rows| - |DropLeading(rows)|..]
    ensures DropLeading(rows) != [] ==> !Empty(DropLeading(rows)[0])
    ensures forall k :: 0 <= k < |rows| - |DropLeading(rows)| ==> Empty(rows[k])
    decreases |rows|
  {
    hide Empty;
    if rows != [] && Empty(rows[0]) {
      LeadingIsSuffix(rows[1..]);
      assert forall k :: 1 <= k < |rows| ==> rows[k] == rows[1..][k - 1];
    }
  }

  lemma {:induction false} UntilIsPrefix(rows: seq<NumberedRow>)
    ensures var k := |UntilEmpty(rows)|;
      && k <= |rows| && UntilEmpty(rows) == rows[..k]
      && (forall i :: 0 <= i < k ==> !Empty(rows[i])) && (k < |rows| ==> Empty(rows[k]))
    decreases |rows|
  {
    hide Empty;
    if rows != [] && !Empty(rows[0]) {
      UntilIsPrefix(rows[1..]);
      var k := |UntilEmpty(rows)|;
      assert rows[..k] == [rows[0]] + rows[1..][..k - 1];
      assert forall i :: 1 <= i < k ==> rows[i] == rows[1..][i - 1];
    }
  }

  lemma BlockStops(rows: seq<NumberedRow>) returns (from: nat, to: nat)
    ensures from <= to <= |rows| && Block(rows, true) == rows[from..to]
    ensures forall k :: 0 <= k < from ==> Empty(rows[k])
    ensures forall k :: from <= k < to ==> !Empty(rows[k])
    ensures from < |rows| ==> from < to && (to < |rows| ==> Empty(rows[to]))
  {
    hide Empty, DropLeading, UntilEmpty;
    LeadingIsSuffix(rows);
    var body := DropLeading(rows);
    from := |rows| - |body|;
    to := from;
    if body != [] {
      UntilIsPrefix(body[1..]);
      to := from + 1 + |UntilEmpty(body[1..])|;
      assert rows[from..to] == [body[0]] + body[1..][..to - from - 1];
      forall k | from <= k < |rows| ensures rows[k] == if k == from then body[0] else body[1..][k - from - 1] {
      }
    }
  }

  /** Stopping at the first empty row, the table is the first unbroken block of rows. */
  lemma StopsAtFirstEmpty(rows: seq<NumberedRow>) returns (from: nat, to: nat)
    ensures from <= to <= |rows| && Table(rows, true) == Narrowed(rows)[from..to]
    ensures forall k :: 0 <= k < from ==> Empty(rows[k])
    ensures forall k :: from <= k < to ==> !Empty(rows[k])
    ensures from < |rows| ==> from < to && (to < |rows| ==> Empty(rows[to]))
  {
    hide Empty, Narrowed, Block;
    from, to := BlockStops(Narrowed(rows));
    forall i | 0 <= i < |rows| ensures Empty(Narrowed(rows)[i]) <==> Empty(rows[i]) {
      NarrowedEmptyIff(rows, i);
    }
  }

  /** A column is dropped exactly when its heading is an empty text and each cell below is missing, null or empty. */
  lemma DroppedIff(rows: seq<NumberedRow>, n: nat, c: nat)
    requires rows != []
    ensures c in Columns(rows, n) <==>
      c < n && !(
        && c < |rows[0].cells| && rows[0].cells[c] == Text("")
        && forall r :: 1 <= r < |rows| && c < |rows[r].cells| ==>
          rows[r].cells[c] == Null || rows[r].cells[c] == Text(""))
  {
    KeptIff(rows, n, c);
  }

  /** Every row of the table is a row of the sheet in the kept columns, with empty text where the row is short. */
  lemma NarrowedCell(rows: seq<NumberedRow>, r: nat, p: nat)
    requires r < |rows| && p < |Columns(rows, Width(rows))|
    ensures var c := Columns(rows, Width(rows))[p]; var row := Narrowed(rows)[r];
      && row.number == rows[r].number && |row.cells| == |Columns(rows, Width(rows))|
      && row.cells[p] == if c < |rows[r].cells| then rows[r].cells[c] else Text("")
  {
    hide Columns;
  }

  /** The table reaches as far as the longest row. */
  lemma {:induction false} WidthIsLongest(rows: seq<NumberedRow>)
    ensures forall r :: 0 <= r < |rows| ==> |rows[r].cells| <= Width(rows)
    ensures Width(rows) == 0 || exists r :: 0 <= r < |rows| && |rows[r].cells| == Width(rows)
    decreases |rows|
  {
    if rows != [] {
      WidthIsLongest(rows[..|rows| - 1]);
      assert forall r :: 0 <= r < |rows| - 1 ==> rows[..|rows| - 1][r] == rows[r];
    }
  }

  /** A row is empty when no cell of it is anything but null or empty text. */
  lemma EmptyIff(row: NumberedRow)
    ensures Empty(row) <==> forall c <- row.cells :: c == Null || c == Text("")
  {
    if Empty(row) {
      forall c | c in row.cells ensures c == Null || c == Text("") {
        var k :| 0 <= k < |row.cells| && row.cells[k] == c;
      }
    }
    if forall c <- row.cells :: c == Null || c == Text("") {
      forall k | 0 <= k < |row.cells| ensures EmptyCell(row.cells[k]) {
        assert row.cells[k] in row.cells;
      }
    }
  }
}
