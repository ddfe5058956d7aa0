/**
 The Google Sheets trigger (nodes/google_sheets_trigger.go): each tick compares
 the rows of the sheet with the fingerprints the last one left.
 */
module SheetsTrigger {
  import opened Wrappers
  import opened Decimals
  import opened Sheets

  const ROW_CAP := 20000

  datatype Event = AnyUpdate | RowAdded | RowUpdate

  /** Where the rows are: the sheet row of the first row read, and the header's and the data's place in what is read. */
  datatype Location = Location(firstRowRead: int, headerIndex: nat, dataFrom: int)

  /** The header, the columns watched, none for all of them, and the digest. */
  datatype Watch = Watch(google: Google, digest: string -> string, header: seq<string>, columns: seq<nat>)

  function Digest(w: Watch, s: string): string { w.digest(s) }

  // ----- Fingerprints ---------------------------------------------------------

  function Trimmed(cells: Row): Row {
    if cells != [] && EmptyCell(cells[|cells| - 1]) then Trimmed(cells[..|cells| - 1]) else cells
  }

  function CellAt(cells: Row, c: nat): Value { if c < |cells| then cells[c] else Null }

  function Picked(cells: Row, columns: seq<nat>): Row {
    if columns == [] then [] else Picked(cells, columns[..|columns| - 1]) + [CellAt(cells, columns[|columns| - 1])]
  }

  /** What the digest is taken of: every cell's text and a separator. */
  function Hashed(g: Google, cells: Row): string {
    if cells == [] then "" else Hashed(g, cells[..|cells| - 1]) + CellText(g, cells[|cells| - 1]) + [31 as char]
  }

  /** The text for the digest: of the cells up to the last that is not empty, or of those in the columns watched. */
  function WatchedText(w: Watch, cells: Row): string {
    Hashed(w.google, if w.columns == [] then Trimmed(cells) else Picked(cells, w.columns))
  }

  function Fingerprint(w: Watch, cells: Row): string { Digest(w, WatchedText(w, cells)) }

  /** How many cells are left without the empty ones at the end. */
  method TrimmedLength(cells: Row) returns (end: nat)
    ensures end <= |cells| && cells[..end] == Trimmed(cells)
  {
    end := |cells|;
    assert cells[..end] == cells;
    while end > 0 && EmptyCell(cells[end - 1])
      invariant end <= |cells| && Trimmed(cells[..end]) == Trimmed(cells)
    {
      assert cells[..end][..end - 1] == cells[..end - 1];
      end := end - 1;
    }
  }

  method RowFingerprint(w: Watch, cells: Row) returns (hash: string)
    ensures hash == Fingerprint(w, cells)
  {
    hide Trimmed, EmptyCell, CellText;
    var text := "";
    if w.columns == [] {
      var end := TrimmedLength(cells);
      for k := 0 to end
        invariant text == Hashed(w.google, cells[..k])
      {
        assert cells[..k + 1][..k] == cells[..k];
        text := text + CellText(w.google, cells[k]) + [31 as char];
      }
    } else {
      for k := 0 to |w.columns|
        invariant text == Hashed(w.google, Picked(cells, w.columns[..k]))
      {
        assert w.columns[..k + 1][..k] == w.columns[..k];
        text := text + CellText(w.google, CellAt(cells, w.columns[k])) + [31 as char];
      }
      assert w.columns[..|w.columns|] == w.columns;
    }
    hash := Digest(w, text);
  }

  /** With every column watched, empty cells at the end of a row change nothing. */
  lemma {:induction false} TrailingEmptyCells(w: Watch, cells: Row, more: Row)
    requires w.columns == [] && EmptyRow(more)
    ensures Fingerprint(w, cells + more) == Fingerprint(w, cells)
    decreases |more|
  {
    if more == [] {
      assert cells + more == cells;
    } else {
      var longer := cells + more;
      assert longer[..|longer| - 1] == cells + more[..|more| - 1];
      TrailingEmptyCells(w, cells, more[..|more| - 1]);
    }
  }

  /** With some columns watched, rows that show the same in those have the same fingerprint. */
  lemma {:induction false} UnwatchedCells(w: Watch, a: Row, b: Row, columns: seq<nat>)
    requires forall k :: 0 <= k < |columns| ==>
      CellText(w.google, CellAt(a, columns[k])) == CellText(w.google, CellAt(b, columns[k]))
    ensures Hashed(w.google, Picked(a, columns)) == Hashed(w.google, Picked(b, columns))
    decreases |columns|
  {
    hide CellText, CellAt;
    if columns != [] {
      UnwatchedCells(w, a, b, columns[..|columns| - 1]);
    }
  }

  const SEPARATOR := 31 as char

  lemma EndsWithin(a: string, x: string, b: string, y: string)
    requires SEPARATOR !in x && a + x == b + y && (b == "" || b[|b| - 1] == SEPARATOR)
    ensures |b| <= |a|
  {
    var s := a + x;
    assert b != "" ==> s[|b| - 1] == SEPARATOR;
    assert forall i :: |a| <= i < |s| ==> s[i] in x;
  }

  lemma SplitAtSeparator(a: string, x: string, b: string, y: string)
    requires SEPARATOR !in x && SEPARATOR !in y && a + x + [SEPARATOR] == b + y + [SEPARATOR]
    requires (a == "" || a[|a| - 1] == SEPARATOR) && (b == "" || b[|b| - 1] == SEPARATOR)
    ensures a == b && x == y
  {
    var s := a + x;
    assert s == b + y by {
      assert (a + x + [SEPARATOR])[..|a + x|] == a + x && (b + y + [SEPARATOR])[..|b + y|] == b + y;
    }
    EndsWithin(a, x, b, y);
    EndsWithin(b, y, a, x);
    assert s[..|a|] == a && s[..|b|] == b && s[|a|..] == x && s[|b|..] == y;
  }

  lemma {:induction false} HashedEnds(g: Google, cells: Row)
    ensures cells == [] <==> Hashed(g, cells) == ""
    ensures cells != [] ==> Hashed(g, cells)[|Hashed(g, cells)| - 1] == SEPARATOR
  {
  }

  /** Texts without the separator are told apart by what is hashed of them: how many there are, and each of them. */
  lemma {:induction false} HashedInjective(g: Google, a: Row, b: Row)
    requires forall v :: v in a || v in b ==> SEPARATOR !in CellText(g, v)
    requires Hashed(g, a) == Hashed(g, b)
    ensures |a| == |b| && forall k :: 0 <= k < |a| ==> CellText(g, a[k]) == CellText(g, b[k])
    decreases |a|
  {
    hide CellText;
    HashedEnds(g, a);
    HashedEnds(g, b);
    if a != [] {
      var c, d := a[..|a| - 1], b[..|b| - 1];
      HashedEnds(g, c);
      HashedEnds(g, d);
      assert a[|a| - 1] in a && b[|b| - 1] in b;
      SplitAtSeparator(Hashed(g, c), CellText(g, a[|a| - 1]), Hashed(g, d), CellText(g, b[|b| - 1]));
      HashedInjective(g, c, d);
      assert forall k :: 0 <= k < |c| ==> a[k] == c[k] && b[k] == d[k];
    }
  }

  lemma {:induction false} HashedSame(g: Google, a: Row, b: Row)
    requires |a| == |b| && forall k :: 0 <= k < |a| ==> CellText(g, a[k]) == CellText(g, b[k])
    ensures Hashed(g, a) == Hashed(g, b)
    decreases |a|
  {
    hide CellText;
    if a != [] {
      HashedSame(g, a[..|a| - 1], b[..|b| - 1]);
    }
  }

  /** What a fingerprint can be trusted for: no text holds the separator, a cell that holds something shows a text. */
  ghost predicate Legible(g: Google, cells: Row) {
    forall v <- cells :: SEPARATOR !in CellText(g, v) && (v != Null && v != Text("") ==> CellText(g, v) != "")
  }

  /** Two rows that the digest takes for one although their texts differ. */
  predicate Collide(w: Watch, a: Row, b: Row) {
    WatchedText(w, a) != WatchedText(w, b) && Digest(w, WatchedText(w, a)) == Digest(w, WatchedText(w, b))
  }

  /** Two rows read alike in what is watched: some columns, or all, where a missing cell reads as an empty one. */
  ghost predicate ReadAlike(w: Watch, a: Row, b: Row) {
    if w.columns == [] then forall c: nat :: TextAt(w.google, a, c) == TextAt(w.google, b, c)
    else forall k :: 0 <= k < |w.columns| ==> TextAt(w.google, a, w.columns[k]) == TextAt(w.google, b, w.columns[k])
  }

  lemma {:induction false} PickedIs(cells: Row, columns: seq<nat>)
    ensures |Picked(cells, columns)| == |columns|
    ensures forall k :: 0 <= k < |columns| ==> Picked(cells, columns)[k] == CellAt(cells, columns[k])
    decreases |columns|
  {
    if columns != [] {
      PickedIs(cells, columns[..|columns| - 1]);
    }
  }

  lemma {:induction false} TrimmedIs(cells: Row)
    ensures Trimmed(cells) <= cells && EmptyRow(cells[|Trimmed(cells)|..])
    ensures Trimmed(cells) != [] ==> !EmptyCell(Trimmed(cells)[|Trimmed(cells)| - 1])
    decreases |cells|
  {
    hide EmptyCell;
    if cells != [] && EmptyCell(cells[|cells| - 1]) {
      var shorter := cells[..|cells| - 1];
      TrimmedIs(shorter);
      assert cells[|Trimmed(shorter)|..] == shorter[|Trimmed(shorter)|..] + [cells[|cells| - 1]];
    }
  }

  lemma TrimmedText(g: Google, cells: Row, c: nat)
    ensures TextAt(g, Trimmed(cells), c) == TextAt(g, cells, c)
  {
    hide Trimmed;
    TrimmedIs(cells);
    var n := |Trimmed(cells)|;
    if n <= c < |cells| {
      assert cells[n..][c - n] == cells[c];
    }
  }

  /** Rows of readable cells that read alike everywhere are of one length once trimmed. */
  lemma AlikeTrimmed(g: Google, a: Row, b: Row)
    requires Legible(g, a) && Legible(g, b) && forall c: nat :: TextAt(g, a, c) == TextAt(g, b, c)
    ensures |Trimmed(a)| == |Trimmed(b)|
  {
    hide Trimmed, CellText;
    TrimmedIs(a);
    TrimmedIs(b);
    if |Trimmed(a)| > |Trimmed(b)| {
      LongerShows(g, a, b);
    } else if |Trimmed(b)| > |Trimmed(a)| {
      LongerShows(g, b, a);
    }
  }

  lemma LongerShows(g: Google, a: Row, b: Row)
    requires Legible(g, a) && |Trimmed(a)| > |Trimmed(b)|
    ensures var c := |Trimmed(a)| - 1; TextAt(g, a, c) != TextAt(g, b, c)
  {
    hide Trimmed, CellText;
    var c := |Trimmed(a)| - 1;
    TrimmedIs(a);
    assert a[c] == Trimmed(a)[c] && a[c] in a;
    TrimmedText(g, b, c);
  }

  /** Rows have one fingerprint exactly when they read alike in what is watched, unless the digest mixes them up. */
  lemma FingerprintsAgreeIff(w: Watch, a: Row, b: Row)
    requires Legible(w.google, a) && Legible(w.google, b)
    ensures Fingerprint(w, a) == Fingerprint(w, b) <==> ReadAlike(w, a, b) || Collide(w, a, b)
  {
    hide WatchedText, ReadAlike;
    TextsAgreeIff(w, a, b);
  }

  lemma TextsAgreeIff(w: Watch, a: Row, b: Row)
    requires Legible(w.google, a) && Legible(w.google, b)
    ensures WatchedText(w, a) == WatchedText(w, b) <==> ReadAlike(w, a, b)
  {
    hide CellText, Trimmed, Hashed, Picked;
    if w.columns == [] {
      TrimmedAgreeIff(w, a, b);
    } else {
      PickedAgreeIff(w, a, b);
    }
  }

  lemma TrimmedAgreeIff(w: Watch, a: Row, b: Row)
    requires w.columns == [] && Legible(w.google, a) && Legible(w.google, b)
    ensures WatchedText(w, a) == WatchedText(w, b) <==> ReadAlike(w, a, b)
  {
    hide CellText, Trimmed, Hashed;
    var g, x, y := w.google, Trimmed(a), Trimmed(b);
    TrimmedIs(a);
    TrimmedIs(b);
    assert forall v :: v in x || v in y ==> v in a || v in b;
    if WatchedText(w, a) == WatchedText(w, b) {
      HashedInjective(g, x, y);
      forall c: nat ensures TextAt(g, a, c) == TextAt(g, b, c) {
        TrimmedText(g, a, c);
        TrimmedText(g, b, c);
      }
    }
    if ReadAlike(w, a, b) {
      AlikeTrimmed(g, a, b);
      forall k | 0 <= k < |x| ensures CellText(g, x[k]) == CellText(g, y[k]) {
        TrimmedText(g, a, k);
        TrimmedText(g, b, k);
      }
      HashedSame(g, x, y);
    }
  }

  lemma PickedAgreeIff(w: Watch, a: Row, b: Row)
    requires w.columns != [] && Legible(w.google, a) && Legible(w.google, b)
    ensures WatchedText(w, a) == WatchedText(w, b) <==> ReadAlike(w, a, b)
  {
    hide CellText, Hashed, Picked;
    var g, x, y := w.google, Picked(a, w.columns), Picked(b, w.columns);
    PickedIs(a, w.columns);
    PickedIs(b, w.columns);
    TextsOfValues(g, "", 0.0);
    forall k | 0 <= k < |w.columns|
      ensures CellText(g, x[k]) == TextAt(g, a, w.columns[k]) && CellText(g, y[k]) == TextAt(g, b, w.columns[k])
      ensures SEPARATOR !in CellText(g, x[k]) && SEPARATOR !in CellText(g, y[k])
    {
    }
    if WatchedText(w, a) == WatchedText(w, b) {
      HashedInjective(g, x, y);
    }
    if ReadAlike(w, a, b) {
      HashedSame(g, x, y);
    }
  }

  // ----- One tick -------------------------------------------------------------

  /** What a tick leaves: the last data row and the fingerprint of each row. */
  datatype Cursor = Cursor(lastRow: nat, rows: map<nat, string>)

  datatype PolledRow = PolledRow(number: nat, cells: Row, hash: string)

  /** What is emitted: one flat map, in which labels and columns share their names. */
  type Item = map<string, Value>

  const CHANGE_TYPE := "change_type"
  const ADDED := "added"
  const UPDATED := "updated"

  function FirstIndex(l: Location): nat {
    if l.dataFrom - l.firstRowRead > l.headerIndex + 1 then l.dataFrom - l.firstRowRead else l.headerIndex + 1
  }

  /** The rows that hold something, from the first data row on, up to index n. */
  function LiveRows(w: Watch, l: Location, data: seq<Row>, n: nat): seq<PolledRow>
    requires n <= |data| && l.firstRowRead >= 1
  {
    if n <= FirstIndex(l) then [] else
    var cells := data[n - 1];
    LiveRows(w, l, data, n - 1) +
      if EmptyRow(cells) then [] else [PolledRow(l.firstRowRead + n - 1, cells, Fingerprint(w, cells))]
  }

  predicate Ascending(rows: seq<PolledRow>) { forall i, k :: 0 <= i < k < |rows| ==> rows[i].number < rows[k].number }

  lemma {:induction false} LiveRowsAscend(w: Watch, l: Location, data: seq<Row>, n: nat)
    requires n <= |data| && l.firstRowRead >= 1
    ensures Ascending(LiveRows(w, l, data, n))
    ensures forall k :: 0 <= k < |LiveRows(w, l, data, n)| ==> LiveRows(w, l, data, n)[k].number < l.firstRowRead + n
    decreases n
  {
    hide EmptyRow, Fingerprint;
    if n > FirstIndex(l) {
      LiveRowsAscend(w, l, data, n - 1);
    }
  }

  /** The live rows are exactly the rows from the first data row on that hold something, each under its own number. */
  lemma {:induction false} LiveRowIff(w: Watch, l: Location, data: seq<Row>, n: nat, row: PolledRow)
    requires n <= |data| && l.firstRowRead >= 1
    ensures row in LiveRows(w, l, data, n) <==>
      var r := row.number - l.firstRowRead;
      FirstIndex(l) <= r < n && !EmptyRow(data[r]) && row.cells == data[r] && row.hash == Fingerprint(w, row.cells)
    decreases n
  {
    hide EmptyRow, Fingerprint, FirstIndex;
    if n > FirstIndex(l) {
      LiveRowIff(w, l, data, n - 1, row);
    }
  }

  function RowsOf(rows: seq<PolledRow>): map<nat, string> {
    if rows == [] then map[] else RowsOf(rows[..|rows| - 1])[rows[|rows| - 1].number := rows[|rows| - 1].hash]
  }

  function LastOf(rows: seq<PolledRow>): nat {
    if rows == [] then 0 else
    var before := LastOf(rows[..|rows| - 1]);
    if rows[|rows| - 1].number > before then rows[|rows| - 1].number else before
  }

  function CursorOf(rows: seq<PolledRow>): Cursor { Cursor(LastOf(rows), RowsOf(rows)) }

  lemma {:induction false} CursorHolds(rows: seq<PolledRow>)
    requires Ascending(rows)
    ensures forall k :: 0 <= k < |rows| ==>
      rows[k].number in RowsOf(rows) && RowsOf(rows)[rows[k].number] == rows[k].hash
    ensures forall n <- RowsOf(rows) :: n <= LastOf(rows) && exists k :: 0 <= k < |rows| && rows[k].number == n
    decreases |rows|
  {
    if rows != [] {
      CursorHolds(rows[..|rows| - 1]);
      assert forall k :: 0 <= k < |rows| - 1 ==> rows[..|rows| - 1][k] == rows[k];
    }
  }

  predicate IsAdded(previous: Cursor, row: PolledRow) { row.number > previous.lastRow || row.number !in previous.rows }

  predicate IsChanged(previous: Cursor, row: PolledRow) {
    row.number in previous.rows && previous.rows[row.number] != row.hash
  }

  /** Whether an event reports a row. */
  predicate Reports(event: Event, previous: Cursor, row: PolledRow) {
    match event
    case RowAdded => row.number > previous.lastRow
    case RowUpdate => IsChanged(previous, row) && row.number <= previous.lastRow
    case AnyUpdate => IsAdded(previous, row) || IsChanged(previous, row)
  }

  function FieldName(header: seq<string>, c: nat): string
    requires c < |header|
  {
    if header[c] == "" then ColumnName(c + 1) else header[c]
  }

  function ColumnName(c: nat): string { "col_" + Decimal(c) }

  function CellOrText(cells: Row, c: nat): Value { if CellAt(cells, c) == Null then Text("") else CellAt(cells, c) }

  /**
   What is put under a row before its columns are: nothing for rows added,
   the number, and for any update the kind.
   */
  function Labels(event: Event, previous: Cursor, row: PolledRow): Item {
    match event
    case RowAdded => map[]
    case RowUpdate => map[ROW_NUMBER := Number(row.number as real)]
    case AnyUpdate =>
      map[ROW_NUMBER := Number(row.number as real),
        CHANGE_TYPE := Text(if IsAdded(previous, row) then ADDED else UPDATED)]
  }

  /**
   The columns put into an item by name; of two columns of one name the later
   is kept, and a missing cell is empty text.
   */
  function WithColumns(item: Item, header: seq<string>, cells: Row, n: nat): Item
    requires n <= |header|
  {
    if n == 0 then item
    else WithColumns(item, header, cells, n - 1)[FieldName(header, n - 1) := CellOrText(cells, n - 1)]
  }

  /** The last of the first n columns with a name. */
  function LastNamed(header: seq<string>, name: string, n: nat): (c: Option<nat>)
    requires n <= |header|
    ensures c.Some? ==> c.value < n && FieldName(header, c.value) == name
    ensures c.None? ==> forall k :: 0 <= k < n ==> FieldName(header, k) != name
  {
    if n == 0 then None
    else if FieldName(header, n - 1) == name then Some(n - 1)
    else LastNamed(header, name, n - 1)
  }

  /**
   A name in the item stands for the last column of that name, and for what
   was there before only when no column has it.
   */
  lemma {:induction false} ColumnsOverLabels(item: Item, header: seq<string>, cells: Row, n: nat, name: string)
    requires n <= |header|
    ensures var c := LastNamed(header, name, n); var all := WithColumns(item, header, cells, n);
      && (name in all <==> name in item || c.Some?)
      && (c.Some? ==> all[name] == CellOrText(cells, c.value))
      && (c.None? && name in item ==> all[name] == item[name])
    decreases n
  {
    hide FieldName, CellOrText;
    if n > 0 {
      ColumnsOverLabels(item, header, cells, n - 1, name);
    }
  }

  function EmissionOf(event: Event, previous: Cursor, header: seq<string>, row: PolledRow): Item {
    WithColumns(Labels(event, previous, row), header, row.cells, |header|)
  }

  function Reported(event: Event, previous: Cursor, header: seq<string>, rows: seq<PolledRow>): seq<Item> {
    if rows == [] then [] else
    var last := rows[|rows| - 1];
    Reported(event, previous, header, rows[..|rows| - 1]) +
      if Reports(event, previous, last) then [EmissionOf(event, previous, header, last)] else []
  }

  method PutColumns(item: Item, header: seq<string>, cells: Row) returns (all: Item)
    ensures all == WithColumns(item, header, cells, |header|)
  {
    all := item;
    for c := 0 to |header|
      invariant all == WithColumns(item, header, cells, c)
    {
      var cell := Text("");
      if c < |cells| && cells[c] != Null {
        cell := cells[c];
      }
      all := all[FieldName(header, c) := cell];
    }
  }

  /** A read that can be compared: it reaches a header that names columns, and holds no more rows than the cap. */
  predicate Watchable(w: Watch, l: Location, data: seq<Row>)
    requires l.firstRowRead >= 1
  {
    l.headerIndex < |data| && w.header != [] && |LiveRows(w, l, data, |data|)| <= ROW_CAP
  }

  /**
   One tick: nothing on the first, and after that the rows the event reports.
   A read that is not watchable changes nothing.
   */
  method Poll(w: Watch, l: Location, event: Event, data: seq<Row>, previous: Option<Cursor>)
    returns (emitted: seq<Item>, next: Option<Cursor>, ok: bool)
    requires l.firstRowRead >= 1
    requires previous.Some? ==> Kept(previous.value)
    ensures !ok ==> emitted == [] && next == previous
    ensures ok <==> Watchable(w, l, data)
    ensures ok <==> l.headerIndex < |data| && w.header != [] && |LiveRows(w, l, data, |data|)| <= 20000
    ensures ok ==> next == Some(CursorOf(LiveRows(w, l, data, |data|))) && Kept(next.value)
    ensures ok && previous.None? ==> emitted == []
    ensures ok && previous.Some? ==> emitted == Reported(event, previous.value, w.header, LiveRows(w, l, data, |data|))
  {
    hide EmptyRow, LiveRows, Reported, Kept, CursorOf;
    if l.headerIndex >= |data| || w.header == [] {
      return [], previous, false;
    }
    var rows := ReadRows(w, l, data);
    if rows.None? {
      return [], previous, false;
    }
    LiveRowsAscend(w, l, data, |data|);
    CursorIsKept(rows.value);
    var current := MakeCursor(rows.value);
    if previous.None? {
      return [], Some(current), true;
    }
    if previous.value == current {
      NothingReported(event, current, w.header, rows.value, rows.value);
      return [], previous, true;
    }
    emitted := Report(event, previous.value, w.header, rows.value);
    next, ok := Some(current), true;
  }

  method ReadRows(w: Watch, l: Location, data: seq<Row>) returns (rows: Option<seq<PolledRow>>)
    requires l.firstRowRead >= 1
    ensures rows == if |LiveRows(w, l, data, |data|)| <= ROW_CAP then Some(LiveRows(w, l, data, |data|)) else None
  {
    hide EmptyRow, Fingerprint, FirstIndex;
    var live: seq<PolledRow> := [];
    var index := FirstIndex(l);
    NoLiveRows(w, l, data);
    while index < |data|
      invariant index >= FirstIndex(l)
      invariant live == LiveRows(w, l, data, if index < |data| then index else |data|) && |live| <= ROW_CAP
    {
      if !EmptyRow(data[index]) {
        var hash := RowFingerprint(w, data[index]);
        live := live + [PolledRow(l.firstRowRead + index, data[index], hash)];
        if |live| > ROW_CAP {
          MoreLiveRows(w, l, data, index + 1, |data|);
          return None;
        }
      }
      index := index + 1;
    }
    rows := Some(live);
  }

  method MakeCursor(rows: seq<PolledRow>) returns (current: Cursor)
    ensures current == CursorOf(rows)
  {
    current := Cursor(0, map[]);
    for k := 0 to |rows|
      invariant current == CursorOf(rows[..k])
    {
      assert rows[..k + 1][..k] == rows[..k];
      current := Cursor(if rows[k].number > current.lastRow then rows[k].number else current.lastRow,
        current.rows[rows[k].number := rows[k].hash]);
    }
    assert rows[..|rows|] == rows;
  }

  method Report(event: Event, previous: Cursor, header: seq<string>, rows: seq<PolledRow>) returns (emitted: seq<Item>)
    ensures emitted == Reported(event, previous, header, rows)
  {
    hide WithColumns;
    emitted := [];
    for k := 0 to |rows|
      invariant emitted == Reported(event, previous, header, rows[..k])
    {
      assert rows[..k + 1][..k] == rows[..k];
      var row := rows[k];
      var added := row.number > previous.lastRow || row.number !in previous.rows;
      var changed := row.number in previous.rows && previous.rows[row.number] != row.hash;
      var item: Item := map[];
      match event {
        case RowAdded =>
          if row.number <= previous.lastRow {
            continue;
          }
        case RowUpdate =>
          if !changed || row.number > previous.lastRow {
            continue;
          }
          item := item[ROW_NUMBER := Number(row.number as real)];
        case AnyUpdate =>
          if !added && !changed {
            continue;
          }
          item := item[ROW_NUMBER := Number(row.number as real)];
          item := item[CHANGE_TYPE := Text(if added then ADDED else UPDATED)];
      }
      item := PutColumns(item, header, row.cells);
      emitted := emitted + [item];
    }
    assert rows[..|rows|] == rows;
  }

  lemma NoLiveRows(w: Watch, l: Location, data: seq<Row>)
    requires l.firstRowRead >= 1
    ensures FirstIndex(l) >= |data| ==> LiveRows(w, l, data, |data|) == []
    ensures FirstIndex(l) < |data| ==> LiveRows(w, l, data, FirstIndex(l)) == []
  {
  }

  lemma {:induction false} MoreLiveRows(w: Watch, l: Location, data: seq<Row>, a: nat, b: nat)
    requires l.firstRowRead >= 1 && a <= b <= |data|
    ensures |LiveRows(w, l, data, a)| <= |LiveRows(w, l, data, b)|
    decreases b
  {
    hide EmptyRow, Fingerprint, FirstIndex;
    if a < b {
      MoreLiveRows(w, l, data, a, b - 1);
    }
  }

  /** A cursor a tick left: no row is past the last one. */
  predicate Kept(c: Cursor) { forall n <- c.rows :: n <= c.lastRow }

  lemma CursorIsKept(rows: seq<PolledRow>)
    requires Ascending(rows)
    ensures Kept(CursorOf(rows))
  {
    CursorHolds(rows);
  }

  /** A sheet that reads as its own cursor says has nothing to report. */
  lemma {:induction false} NothingReported(event: Event, current: Cursor, header: seq<string>, rows: seq<PolledRow>,
                                           all: seq<PolledRow>)
    requires Ascending(all) && current == CursorOf(all) && rows <= all
    ensures Reported(event, current, header, rows) == []
    decreases |rows|
  {
    hide EmissionOf;
    if rows != [] {
      NothingReported(event, current, header, rows[..|rows| - 1], all);
      CursorHolds(all);
      assert rows[|rows| - 1] == all[|rows| - 1];
    }
  }

  // ----- What a tick reports ----------------------------------------------------

  /** Every emission is the report of a row the event reports. */
  lemma {:induction false} ReportsOnlyRows(event: Event, previous: Cursor, header: seq<string>, rows: seq<PolledRow>,
                                           i: nat)
    returns (k: nat)
    requires i < |Reported(event, previous, header, rows)|
    ensures k < |rows| && Reports(event, previous, rows[k])
    ensures Reported(event, previous, header, rows)[i] == EmissionOf(event, previous, header, rows[k])
    decreases |rows|
  {
    hide Reports, EmissionOf;
    var before := rows[..|rows| - 1];
    if i < |Reported(event, previous, header, before)| {
      k := ReportsOnlyRows(event, previous, header, before, i);
    } else {
      k := |rows| - 1;
    }
  }

  /** Emissions come in row order, so no row is reported twice. */
  lemma {:induction false} ReportsInOrder(event: Event, previous: Cursor, header: seq<string>, rows: seq<PolledRow>,
                                          i: nat, j: nat)
    returns (a: nat, b: nat)
    requires i < j < |Reported(event, previous, header, rows)|
    ensures a < b < |rows| && Reports(event, previous, rows[a]) && Reports(event, previous, rows[b])
    ensures Reported(event, previous, header, rows)[i] == EmissionOf(event, previous, header, rows[a])
    ensures Reported(event, previous, header, rows)[j] == EmissionOf(event, previous, header, rows[b])
    decreases |rows|
  {
    hide Reports, EmissionOf;
    var before := rows[..|rows| - 1];
    if j < |Reported(event, previous, header, before)| {
      a, b := ReportsInOrder(event, previous, header, before, i, j);
    } else {
      a := ReportsOnlyRows(event, previous, header, before, i);
      b := |rows| - 1;
    }
  }

  /** And every row the event reports is emitted. */
  lemma {:induction false} ReportsEveryRow(event: Event, previous: Cursor, header: seq<string>, rows: seq<PolledRow>,
                                           k: nat)
    requires k < |rows| && Reports(event, previous, rows[k])
    ensures EmissionOf(event, previous, header, rows[k]) in Reported(event, previous, header, rows)
    decreases |rows|
  {
    hide Reports, EmissionOf;
    if k < |rows| - 1 {
      ReportsEveryRow(event, previous, header, rows[..|rows| - 1], k);
    }
  }

  /** Rows added, rows updated and gaps filled are apart, and together they are what any update reports. */
  lemma EventsPartition(previous: Cursor, row: PolledRow)
    requires Kept(previous)
    ensures Reports(AnyUpdate, previous, row) <==>
      Reports(RowAdded, previous, row) || Reports(RowUpdate, previous, row) || FillsGap(previous, row)
    ensures !(Reports(RowAdded, previous, row) && Reports(RowUpdate, previous, row))
    ensures !(Reports(RowAdded, previous, row) && FillsGap(previous, row))
    ensures !(Reports(RowUpdate, previous, row) && FillsGap(previous, row))
    ensures Reports(AnyUpdate, previous, row) ==>
      (Labels(AnyUpdate, previous, row)[CHANGE_TYPE] == Text(UPDATED) <==> Reports(RowUpdate, previous, row))
  {
    assert |ROW_NUMBER| == 10 && |CHANGE_TYPE| == 11 && |ADDED| == 5 && |UPDATED| == 7;
  }

  /** A row that was empty, above the last one. */
  predicate FillsGap(previous: Cursor, row: PolledRow) {
    row.number <= previous.lastRow && row.number !in previous.rows
  }

  // ----- Two reads of one sheet ---------------------------------------------------

  /** A row of the sheet that is watched: below the header, not above the first data row, and not empty throughout. */
  predicate Holds(l: Location, data: seq<Row>, n: int) {
    var r := n - l.firstRowRead;
    && l.headerIndex < r < |data| && l.dataFrom <= n
    && exists c :: 0 <= c < |data[r]| && data[r][c] != Null && data[r][c] != Text("")
  }

  function CellsOf(l: Location, data: seq<Row>, n: int): Row
    requires Holds(l, data, n)
  {
    data[n - l.firstRowRead]
  }

  /** A row both reads hold that no longer reads alike, where the digest sees it. */
  ghost predicate Differs(w: Watch, l: Location, before: seq<Row>, after: seq<Row>, n: int)
    requires Holds(l, before, n) && Holds(l, after, n)
  {
    var a, b := CellsOf(l, before, n), CellsOf(l, after, n);
    !ReadAlike(w, a, b) && !Collide(w, a, b)
  }

  /** What an event is for, said of the sheet before and after. */
  ghost predicate Told(event: Event, w: Watch, l: Location, before: seq<Row>, after: seq<Row>, n: int) {
    && Holds(l, after, n)
    && match event
       case RowAdded => forall m :: Holds(l, before, m) ==> m < n
       case RowUpdate => Holds(l, before, n) && Differs(w, l, before, after, n)
       case AnyUpdate => Holds(l, before, n) ==> Differs(w, l, before, after, n)
  }

  ghost predicate AllLegible(g: Google, data: seq<Row>) { forall cells <- data :: Legible(g, cells) }

  lemma LiveRowHeld(w: Watch, l: Location, data: seq<Row>, row: PolledRow)
    requires l.firstRowRead >= 1 && row in LiveRows(w, l, data, |data|)
    ensures Holds(l, data, row.number) && row.cells == CellsOf(l, data, row.number)
    ensures row.hash == Fingerprint(w, row.cells)
  {
    hide LiveRows, Fingerprint, Holds;
    LiveRowIff(w, l, data, |data|, row);
    var c :| 0 <= c < |row.cells| && !EmptyCell(row.cells[c]);
    HeldBy(l, data, row.number, c);
  }

  lemma HeldBy(l: Location, data: seq<Row>, n: int, c: nat)
    requires l.headerIndex < n - l.firstRowRead < |data| && l.dataFrom <= n
    requires c < |data[n - l.firstRowRead]| && !EmptyCell(data[n - l.firstRowRead][c])
    ensures Holds(l, data, n) && CellsOf(l, data, n) == data[n - l.firstRowRead]
  {
    var r := n - l.firstRowRead;
    assert data[r][c] != Null && data[r][c] != Text("");
  }

  lemma HoldsIff(w: Watch, l: Location, data: seq<Row>, n: int)
    requires l.firstRowRead >= 1
    ensures Holds(l, data, n) ==>
      PolledRow(n, CellsOf(l, data, n), Fingerprint(w, CellsOf(l, data, n))) in LiveRows(w, l, data, |data|)
    ensures forall row :: row in LiveRows(w, l, data, |data|) && row.number == n ==>
      Holds(l, data, n) && row.cells == CellsOf(l, data, n) && row.hash == Fingerprint(w, row.cells)
  {
    hide LiveRows, Fingerprint;
    if Holds(l, data, n) {
      LiveRowIff(w, l, data, |data|, PolledRow(n, CellsOf(l, data, n), Fingerprint(w, CellsOf(l, data, n))));
    }
    forall row | row in LiveRows(w, l, data, |data|) && row.number == n
      ensures Holds(l, data, n) && row.cells == CellsOf(l, data, n) && row.hash == Fingerprint(w, row.cells)
    {
      LiveRowHeld(w, l, data, row);
    }
  }

  /** What a first tick remembers: the fingerprint of each row the sheet holds, and the last of them. */
  lemma CursorSays(w: Watch, l: Location, data: seq<Row>, n: int)
    requires l.firstRowRead >= 1
    ensures var c := CursorOf(LiveRows(w, l, data, |data|));
      && (Holds(l, data, n) <==> n >= 0 && n in c.rows)
      && (Holds(l, data, n) ==> c.rows[n] == Fingerprint(w, CellsOf(l, data, n)) && n <= c.lastRow)
  {
    hide LiveRows, Fingerprint, Holds, CellsOf, Ascending;
    var rows := LiveRows(w, l, data, |data|);
    LiveRowsAscend(w, l, data, |data|);
    CursorHolds(rows);
    HoldsIff(w, l, data, n);
  }

  lemma {:induction false} LastIsThere(rows: seq<PolledRow>)
    ensures LastOf(rows) > 0 ==> exists k :: 0 <= k < |rows| && rows[k].number == LastOf(rows)
    decreases |rows|
  {
    if rows != [] {
      LastIsThere(rows[..|rows| - 1]);
      assert forall k :: 0 <= k < |rows| - 1 ==> rows[..|rows| - 1][k] == rows[k];
    }
  }

  lemma PastTheLastIff(w: Watch, l: Location, data: seq<Row>, n: nat)
    requires l.firstRowRead >= 1 && n > 0
    ensures n > CursorOf(LiveRows(w, l, data, |data|)).lastRow <==> forall m :: Holds(l, data, m) ==> m < n
  {
    hide LiveRows, Fingerprint, Holds, RowsOf, LastOf;
    var rows := LiveRows(w, l, data, |data|);
    forall m | Holds(l, data, m) ensures m <= LastOf(rows) {
      CursorSays(w, l, data, m);
    }
    LastIsThere(rows);
    if LastOf(rows) > 0 {
      HoldsIff(w, l, data, LastOf(rows));
    }
  }

  /**
   Against the cursor of an earlier read, an event reports the rows it is for:
   a row the sheet has kept is reported as updated exactly when what is watched
   of it reads otherwise.
   */
  lemma ReportsIff(event: Event, w: Watch, l: Location, before: seq<Row>, after: seq<Row>, row: PolledRow)
    requires l.firstRowRead >= 1 && AllLegible(w.google, before) && AllLegible(w.google, after)
    requires row in LiveRows(w, l, after, |after|)
    ensures Holds(l, after, row.number) && row.cells == CellsOf(l, after, row.number)
    ensures Reports(event, CursorOf(LiveRows(w, l, before, |before|)), row) <==>
      Told(event, w, l, before, after, row.number)
    ensures IsAdded(CursorOf(LiveRows(w, l, before, |before|)), row) <==> !Holds(l, before, row.number)
  {
    hide LiveRows, Fingerprint, ReadAlike, Collide, Legible, CursorOf, Holds;
    HoldsIff(w, l, after, row.number);
    CursorSays(w, l, before, row.number);
    assert row.number > 0 by {
      assert Holds(l, after, row.number);
      NumbersArePositive(l, after, row.number);
    }
    PastTheLastIff(w, l, before, row.number);
    if Holds(l, before, row.number) {
      CellsAreRead(l, before, row.number);
      CellsAreRead(l, after, row.number);
      FingerprintsAgreeIff(w, CellsOf(l, before, row.number), row.cells);
    }
  }

  lemma NumbersArePositive(l: Location, data: seq<Row>, n: int)
    requires l.firstRowRead >= 1 && Holds(l, data, n)
    ensures n > 0
  {
  }

  lemma CellsAreRead(l: Location, data: seq<Row>, n: int)
    requires Holds(l, data, n)
    ensures CellsOf(l, data, n) in data
  {
  }

  // ----- What an item still says --------------------------------------------------

  /** The row number a reader of the item finds. */
  function NumberIn(item: Item): Option<nat> {
    if ROW_NUMBER in item && item[ROW_NUMBER].Number? && item[ROW_NUMBER].number >= 0.0
      && item[ROW_NUMBER].number.Floor as real == item[ROW_NUMBER].number then Some(item[ROW_NUMBER].number.Floor)
    else None
  }

  /**
   A column stands under a label's name exactly when its heading is that
   name: an unnamed column is called otherwise.
   */
  lemma NamedByHeading(header: seq<string>, name: string)
    requires name == ROW_NUMBER || name == CHANGE_TYPE
    ensures LastNamed(header, name, |header|).None? <==> name !in header
  {
    forall c | 0 <= c < |header| ensures FieldName(header, c) == name <==> header[c] == name {
      assert ROW_NUMBER[0] == 'r' && CHANGE_TYPE[1] == 'h' && ColumnName(c + 1)[0] == 'c' &&
        ColumnName(c + 1)[1] == 'o';
    }
  }

  /**
   The label a reported row carries is what the item says exactly when no
   later heading hides it, or hides it by itself.
   */
  lemma LabelSurvivesIff(event: Event, previous: Cursor, header: seq<string>, row: PolledRow, name: string)
    requires name in Labels(event, previous, row)
    ensures var item := EmissionOf(event, previous, header, row); var c := LastNamed(header, name, |header|);
      && name in item
      && (item[name] == Labels(event, previous, row)[name] <==>
        name !in header || (c.Some? && CellOrText(row.cells, c.value) == Labels(event, previous, row)[name]))
  {
    ColumnsOverLabels(Labels(event, previous, row), header, row.cells, |header|, name);
    NamedByHeading(header, name);
  }

  /** Every item says its row's number, whatever the row holds, exactly when no heading is called row_number. */
  lemma NumberSurvivesIff(previous: Cursor, header: seq<string>)
    ensures (forall row: PolledRow :: NumberIn(EmissionOf(AnyUpdate, previous, header, row)) == Some(row.number))
      <==> ROW_NUMBER !in header
  {
    hide EmissionOf;
    if ROW_NUMBER in header {
      var row := PolledRow(1, seq(|header|, k => Text("x")), "");
      NumberHidden(previous, header, row);
    } else {
      forall row: PolledRow ensures NumberIn(EmissionOf(AnyUpdate, previous, header, row)) == Some(row.number) {
        NumberShown(previous, header, row);
      }
    }
  }

  lemma NumberShown(previous: Cursor, header: seq<string>, row: PolledRow)
    requires ROW_NUMBER !in header
    ensures NumberIn(EmissionOf(AnyUpdate, previous, header, row)) == Some(row.number)
  {
    hide EmissionOf;
    LabelSurvivesIff(AnyUpdate, previous, header, row, ROW_NUMBER);
    assert (row.number as real).Floor == row.number;
  }

  /** A heading called row_number over cells of text leaves an item that says no row. */
  lemma NumberHidden(previous: Cursor, header: seq<string>, row: PolledRow)
    requires ROW_NUMBER in header && |row.cells| >= |header|
    requires forall k :: 0 <= k < |row.cells| ==> row.cells[k].Text?
    ensures NumberIn(EmissionOf(AnyUpdate, previous, header, row)).None?
  {
    ColumnsOverLabels(Labels(AnyUpdate, previous, row), header, row.cells, |header|, ROW_NUMBER);
    NamedByHeading(header, ROW_NUMBER);
  }

  predicate SaysKind(item: Item, kind: string) { CHANGE_TYPE in item && item[CHANGE_TYPE] == Text(kind) }

  function KindOf(previous: Cursor, row: PolledRow): string { if IsAdded(previous, row) then ADDED else UPDATED }

  /** Every item says its kind, whatever the row holds, exactly when no heading is called change_type. */
  lemma KindSurvivesIff(previous: Cursor, header: seq<string>)
    ensures (forall row: PolledRow :: SaysKind(EmissionOf(AnyUpdate, previous, header, row), KindOf(previous, row)))
      <==> CHANGE_TYPE !in header
  {
    hide EmissionOf, IsAdded;
    if CHANGE_TYPE in header {
      var row := PolledRow(1, seq(|header|, k => Text("x")), "");
      LabelSurvivesIff(AnyUpdate, previous, header, row, CHANGE_TYPE);
      NamedByHeading(header, CHANGE_TYPE);
      assert |ADDED| == 5 && |UPDATED| == 7 && |"x"| == 1;
      assert !SaysKind(EmissionOf(AnyUpdate, previous, header, row), KindOf(previous, row));
    } else {
      forall row: PolledRow ensures SaysKind(EmissionOf(AnyUpdate, previous, header, row), KindOf(previous, row)) {
        LabelSurvivesIff(AnyUpdate, previous, header, row, CHANGE_TYPE);
      }
    }
  }

  // ----- Laying what was emitted over the baseline ----------------------------------

  /** A reader who lays emitted items over fingerprints by the row number each item says. */
  function LaidOver(overlay: map<nat, string>, emitted: seq<Item>, current: map<nat, string>): map<nat, string> {
    if emitted == [] then overlay else
    var before := LaidOver(overlay, emitted[..|emitted| - 1], current);
    var n := NumberIn(emitted[|emitted| - 1]);
    if n.Some? && n.value in current then before[n.value := current[n.value]] else before
  }

  /** The last item a reader was shown for each row number. */
  function ShownBy(shown: map<nat, Item>, emitted: seq<Item>): map<nat, Item> {
    if emitted == [] then shown else
    var before := ShownBy(shown, emitted[..|emitted| - 1]);
    var n := NumberIn(emitted[|emitted| - 1]);
    if n.Some? then before[n.value := emitted[|emitted| - 1]] else before
  }

  predicate Covers(overlay: map<nat, string>, rows: map<nat, string>) {
    forall n <- rows :: n in overlay && overlay[n] == rows[n]
  }

  /** What the last row of a tick adds to what the rows before it laid over and showed. */
  lemma LastRowLaid(overlay: map<nat, string>, shown: map<nat, Item>, previous: Cursor, header: seq<string>,
                    rows: seq<PolledRow>, current: map<nat, string>)
    requires ROW_NUMBER !in header && rows != []
    requires rows[|rows| - 1].number in current && current[rows[|rows| - 1].number] == rows[|rows| - 1].hash
    ensures var last := rows[|rows| - 1];
            var e, f := Reported(AnyUpdate, previous, header, rows),
              Reported(AnyUpdate, previous, header, rows[..|rows| - 1]);
            var over, seen := LaidOver(overlay, f, current), ShownBy(shown, f);
      && LaidOver(overlay, e, current) ==
        (if Reports(AnyUpdate, previous, last) then over[last.number := last.hash] else over)
      && ShownBy(shown, e) ==
        if Reports(AnyUpdate, previous, last) then seen[last.number := EmissionOf(AnyUpdate, previous, header, last)]
        else seen
  {
    hide Reports, EmissionOf, NumberIn;
    var last := rows[|rows| - 1];
    var e, f := Reported(AnyUpdate, previous, header, rows), Reported(AnyUpdate, previous, header, rows[..|rows| - 1]);
    if Reports(AnyUpdate, previous, last) {
      NumberShown(previous, header, last);
      assert e[..|e| - 1] == f;
    } else {
      assert e == f;
    }
  }

  /** One row after a tick's emissions: laid over and shown when the row is reported, and otherwise as before. */
  lemma {:induction false} ReportedAt(overlay: map<nat, string>, shown: map<nat, Item>, previous: Cursor,
                                      header: seq<string>, rows: seq<PolledRow>, current: map<nat, string>, n: nat)
    requires ROW_NUMBER !in header && Ascending(rows)
    requires forall k :: 0 <= k < |rows| ==> rows[k].number in current && current[rows[k].number] == rows[k].hash
    ensures var e := Reported(AnyUpdate, previous, header, rows);
            var over, seen := LaidOver(overlay, e, current), ShownBy(shown, e);
      && (forall k :: 0 <= k < |rows| && rows[k].number == n && Reports(AnyUpdate, previous, rows[k]) ==>
        n in over && over[n] == rows[k].hash && n in seen &&
          seen[n] == EmissionOf(AnyUpdate, previous, header, rows[k]))
      && ((forall k :: 0 <= k < |rows| && rows[k].number == n ==> !Reports(AnyUpdate, previous, rows[k])) ==>
        && (n in over <==> n in overlay) && (n in overlay ==> over[n] == overlay[n])
        && (n in seen <==> n in shown) && (n in shown ==> seen[n] == shown[n]))
    decreases |rows|
  {
    hide Reports, EmissionOf, LaidOver, ShownBy, Reported;
    if rows == [] {
      NothingLaid(overlay, shown, previous, header, current);
    } else {
      var before := rows[..|rows| - 1];
      assert forall k :: 0 <= k < |before| ==> before[k] == rows[k];
      ReportedAt(overlay, shown, previous, header, before, current, n);
      LastRowLaid(overlay, shown, previous, header, rows, current);
    }
  }

  lemma NothingLaid(overlay: map<nat, string>, shown: map<nat, Item>, previous: Cursor, header: seq<string>,
                    current: map<nat, string>)
    ensures var e := Reported(AnyUpdate, previous, header, []);
      LaidOver(overlay, e, current) == overlay && ShownBy(shown, e) == shown
  {
  }

  /**
   After a tick of any update the overlay has the current fingerprint of
   every live row, if it had the previous ones.
   */
  lemma OverlayStep(overlay: map<nat, string>, previous: Cursor, header: seq<string>, rows: seq<PolledRow>)
    requires ROW_NUMBER !in header && Ascending(rows) && Covers(overlay, previous.rows)
    ensures Covers(LaidOver(overlay, Reported(AnyUpdate, previous, header, rows), RowsOf(rows)), RowsOf(rows))
  {
    hide EmissionOf, NumberIn, LaidOver, Reported;
    CursorHolds(rows);
    forall n | n in RowsOf(rows)
      ensures var over := LaidOver(overlay, Reported(AnyUpdate, previous, header, rows), RowsOf(rows));
        n in over && over[n] == RowsOf(rows)[n]
    {
      var k :| 0 <= k < |rows| && rows[k].number == n;
      ReportedAt(overlay, map[], previous, header, rows, RowsOf(rows), n);
    }
  }

  /** With a heading called row_number a new row of texts is emitted and lost: the item does not say where it stands. */
  lemma HeadingLoses(header: seq<string>, row: PolledRow)
    requires ROW_NUMBER in header && row.number > 0 && row.cells == seq(|header|, k => Text("x"))
    ensures var e := Reported(AnyUpdate, Cursor(0, map[]), header, [row]);
      |e| == 1 && LaidOver(map[], e, RowsOf([row])) == map[] && RowsOf([row]) == map[row.number := row.hash]
  {
    hide EmissionOf, NumberIn;
    var rows := [row];
    var previous := Cursor(0, map[]);
    NumberHidden(previous, header, row);
    assert rows[..0] == [];
    assert Reported(AnyUpdate, previous, header, rows[..0]) == [];
    var e := Reported(AnyUpdate, previous, header, rows);
    assert e == [EmissionOf(AnyUpdate, previous, header, row)];
    assert e[..0] == [];
    assert LaidOver(map[], e[..0], RowsOf(rows)) == map[];
    assert RowsOf(rows[..0]) == map[];
  }

  /**
   Polls a sheet with a heading called row_number twice, at first with the
   header alone and then with a row of texts below it. The row is emitted, and
   the overlay lacks it: the item does not say where it stands.
   */
  method OverlayLost(w: Watch) returns (baseline: Cursor, emitted: seq<Item>, current: Cursor)
    requires ROW_NUMBER in w.header
    ensures var l := Location(1, 0, 2); var below := seq(|w.header|, k => Text("x"));
      && baseline == CursorOf(LiveRows(w, l, [NameCells(w.header)], 1))
      && current == CursorOf(LiveRows(w, l, [NameCells(w.header), below], 2))
      && emitted == Reported(AnyUpdate, baseline, w.header, LiveRows(w, l, [NameCells(w.header), below], 2))
    ensures |emitted| == 1 && 2 in current.rows && 2 !in LaidOver(baseline.rows, emitted, current.rows)
  {
    hide EmissionOf, NumberIn, Fingerprint, Reported, LaidOver;
    var l := Location(1, 0, 2);
    var below := seq(|w.header|, k => Text("x"));
    var first, second := [NameCells(w.header)], [NameCells(w.header), below];
    var none, start, ok := Poll(w, l, AnyUpdate, first, None);
    var row := PolledRow(2, below, Fingerprint(w, below));
    assert !EmptyRow(below) by {
      assert !EmptyCell(below[0]);
    }
    assert LiveRows(w, l, first, 1) == LiveRows(w, l, second, 1) == [];
    assert start.value == Cursor(0, map[]);
    assert LiveRows(w, l, second, 2) == [row];
    var item, next, again := Poll(w, l, AnyUpdate, second, start);
    HeadingLoses(w.header, row);
    baseline, emitted, current := start.value, item, next.value;
  }

  /** So the overlay can be relied on, whatever the sheet holds, exactly when no heading is called row_number. */
  lemma OverlayHoldsIff(header: seq<string>)
    ensures (forall overlay: map<nat, string>, previous: Cursor, rows: seq<PolledRow>
        | Ascending(rows) && Covers(overlay, previous.rows) ::
        Covers(LaidOver(overlay, Reported(AnyUpdate, previous, header, rows), RowsOf(rows)), RowsOf(rows)))
      <==> ROW_NUMBER !in header
  {
    hide EmissionOf, NumberIn, LaidOver, Reported, RowsOf;
    if ROW_NUMBER in header {
      var rows := [PolledRow(2, seq(|header|, k => Text("x")), "")];
      HeadingLoses(header, rows[0]);
      var over := LaidOver(map[], Reported(AnyUpdate, Cursor(0, map[]), header, rows), RowsOf(rows));
      assert 2 in RowsOf(rows) && 2 !in over;
      assert Covers(map[], Cursor(0, map[]).rows) && Ascending(rows);
    } else {
      forall overlay: map<nat, string>, previous: Cursor, rows: seq<PolledRow>
        | Ascending(rows) && Covers(overlay, previous.rows)
        ensures Covers(LaidOver(overlay, Reported(AnyUpdate, previous, header, rows), RowsOf(rows)), RowsOf(rows))
      {
        OverlayStep(overlay, previous, header, rows);
      }
    }
  }

  /** A heading that no later column takes over. */
  predicate Stays(header: seq<string>, c: nat)
    requires c < |header|
  {
    forall d :: c < d < |header| ==> FieldName(header, d) != FieldName(header, c)
  }

  /** The item of row n: its cells under their headings, and, where the event has one, its number and its kind. */
  predicate Shows(event: Event, header: seq<string>, l: Location, before: seq<Row>, cells: Row, n: nat, item: Item) {
    && (forall c :: 0 <= c < |header| && Stays(header, c) ==>
      && FieldName(header, c) in item
      && item[FieldName(header, c)] == if c < |cells| && cells[c] != Null then cells[c] else Text(""))
    && (event != RowAdded && "row_number" !in header ==>
      "row_number" in item && item["row_number"] == Number(n as real))
    && (event == AnyUpdate && "change_type" !in header ==>
      "change_type" in item && item["change_type"] == Text(if Holds(l, before, n) then "updated" else "added"))
    && (forall name <- item ::
      || (exists c :: 0 <= c < |header| && FieldName(header, c) == name)
      || (event != RowAdded && name == "row_number")
      || (event == AnyUpdate && name == "change_type"))
  }

  /** A column with a heading goes by it, and the others by where they stand. */
  lemma FieldNameIs(header: seq<string>, c: nat)
    requires c < |header|
    ensures header[c] != "" ==> FieldName(header, c) == header[c]
    ensures header[c] == "" ==> FieldName(header, c) == "col_" + Decimal(c + 1)
    ensures header[c] == "" && c == 1 ==> FieldName(header, c) == "col_2"
  {
  }

  lemma LastOfItsName(header: seq<string>, c: nat, n: nat)
    requires c < n <= |header| && Stays(header, c)
    ensures LastNamed(header, FieldName(header, c), n) == Some(c)
    decreases n
  {
    hide FieldName;
    if n - 1 > c {
      LastOfItsName(header, c, n - 1);
    }
  }

  lemma EmissionShows(event: Event, w: Watch, l: Location, before: seq<Row>, previous: Cursor, row: PolledRow)
    requires IsAdded(previous, row) <==> !Holds(l, before, row.number)
    ensures Shows(event, w.header, l, before, row.cells, row.number, EmissionOf(event, previous, w.header, row))
  {
    hide Holds, FieldName, IsAdded, WithColumns;
    var labels, header := Labels(event, previous, row), w.header;
    var item := EmissionOf(event, previous, header, row);
    forall c | 0 <= c < |header| && Stays(header, c)
      ensures FieldName(header, c) in item
      ensures item[FieldName(header, c)] == if c < |row.cells| && row.cells[c] != Null then row.cells[c] else Text("")
    {
      LastOfItsName(header, c, |header|);
      ColumnsOverLabels(labels, header, row.cells, |header|, FieldName(header, c));
    }
    LabelsShow(event, previous, header, row);
    forall name | name in item
      ensures name in labels || exists c :: 0 <= c < |header| && FieldName(header, c) == name
    {
      ColumnsOverLabels(labels, header, row.cells, |header|, name);
    }
    assert ROW_NUMBER == "row_number" && CHANGE_TYPE == "change_type";
  }

  lemma LabelsShow(event: Event, previous: Cursor, header: seq<string>, row: PolledRow)
    ensures var item := EmissionOf(event, previous, header, row);
      && (event != RowAdded && "row_number" !in header ==>
        "row_number" in item && item["row_number"] == Number(row.number as real))
      && (event == AnyUpdate && "change_type" !in header ==>
        && "change_type" in item
        && item["change_type"] == Text(if IsAdded(previous, row) then "added" else "updated"))
  {
    hide EmissionOf;
    assert ROW_NUMBER[0] != CHANGE_TYPE[0];
    if event != RowAdded {
      LabelSurvivesIff(event, previous, header, row, ROW_NUMBER);
    }
    if event == AnyUpdate {
      LabelSurvivesIff(event, previous, header, row, CHANGE_TYPE);
    }
  }

  /** The numbers of the rows an event reports. */
  ghost function NumbersOf(event: Event, previous: Cursor, rows: seq<PolledRow>): seq<nat> {
    if rows == [] then [] else
    var last := rows[|rows| - 1];
    NumbersOf(event, previous, rows[..|rows| - 1]) + if Reports(event, previous, last) then [last.number] else []
  }

  lemma {:induction false} NumbersReported(event: Event, w: Watch, l: Location, before: seq<Row>, after: seq<Row>,
                                           rows: seq<PolledRow>)
    requires l.firstRowRead >= 1 && AllLegible(w.google, before) && AllLegible(w.google, after)
    requires rows <= LiveRows(w, l, after, |after|)
    ensures var previous := CursorOf(LiveRows(w, l, before, |before|));
            var emitted, numbers := Reported(event, previous, w.header, rows), NumbersOf(event, previous, rows);
      && |numbers| == |emitted|
      && (forall i :: 0 <= i < |numbers| ==>
        && Told(event, w, l, before, after, numbers[i])
        && Shows(event, w.header, l, before, CellsOf(l, after, numbers[i]), numbers[i], emitted[i]))
      && (forall row :: row in rows && Told(event, w, l, before, after, row.number) ==> row.number in numbers)
    decreases |rows|
  {
    hide LiveRows, CursorOf, Told, Shows, EmissionOf, Reports, IsAdded, AllLegible, Holds, CellsOf;
    if rows != [] {
      var last := rows[|rows| - 1];
      NumbersReported(event, w, l, before, after, rows[..|rows| - 1]);
      assert last in LiveRows(w, l, after, |after|);
      ReportsIff(event, w, l, before, after, last);
      EmissionShows(event, w, l, before, CursorOf(LiveRows(w, l, before, |before|)), last);
    }
  }

  lemma {:induction false} NumbersAscend(event: Event, previous: Cursor, rows: seq<PolledRow>)
    returns (numbers: seq<nat>)
    requires Ascending(rows)
    ensures numbers == NumbersOf(event, previous, rows)
    ensures forall i, k :: 0 <= i < k < |numbers| ==> numbers[i] < numbers[k]
    ensures forall i :: 0 <= i < |numbers| ==> rows != [] && numbers[i] <= rows[|rows| - 1].number
    decreases |rows|
  {
    hide Reports;
    numbers := [];
    if rows != [] {
      var before, last := rows[..|rows| - 1], rows[|rows| - 1];
      numbers := NumbersAscend(event, previous, before);
      assert before != [] ==> before[|before| - 1].number < last.number;
      numbers := numbers + if Reports(event, previous, last) then [last.number] else [];
    }
  }

  /**
   Two ticks over one sheet. The second emits one item for each row the event is
   for, in the order of the rows, with that row's cells, its number and its kind.
   */
  method PollTwice(w: Watch, l: Location, event: Event, before: seq<Row>, after: seq<Row>)
    returns (emitted: seq<Item>, ok: bool, ghost numbers: seq<nat>)
    requires l.firstRowRead >= 1 && AllLegible(w.google, before) && AllLegible(w.google, after)
    ensures ok <==> Watchable(w, l, before) && Watchable(w, l, after)
    ensures ok ==> |emitted| == |numbers|
    ensures ok ==> forall i, k :: 0 <= i < k < |numbers| ==> numbers[i] < numbers[k]
    ensures ok ==> forall n: nat :: Told(event, w, l, before, after, n) ==> n in numbers
    ensures ok ==> forall i :: 0 <= i < |numbers| ==>
      && Told(event, w, l, before, after, numbers[i])
      && Shows(event, w.header, l, before, CellsOf(l, after, numbers[i]), numbers[i], emitted[i])
  {
    hide LiveRows, CursorOf, Told, Shows, Reports, AllLegible, Watchable, Kept;
    var none, first, began := Poll(w, l, event, before, None);
    if !began {
      return [], false, [];
    }
    var next: Option<Cursor>;
    numbers := [];
    emitted, next, ok := Poll(w, l, event, after, first);
    if ok {
      ghost var rows := LiveRows(w, l, after, |after|);
      LiveRowsAscend(w, l, after, |after|);
      numbers := NumbersAscend(event, first.value, rows);
      NumbersReported(event, w, l, before, after, rows);
      forall n: nat | Told(event, w, l, before, after, n) ensures n in numbers {
        ToldIsHeld(event, w, l, before, after, n);
        HoldsIff(w, l, after, n);
      }
    }
  }

  lemma ToldIsHeld(event: Event, w: Watch, l: Location, before: seq<Row>, after: seq<Row>, n: int)
    requires Told(event, w, l, before, after, n)
    ensures Holds(l, after, n)
  {
  }

  // ----- Whole runs ---------------------------------------------------------------

  /** What one tick reads: the header with the columns watched in it, where the rows are, and the values. */
  datatype Read = Read(watch: Watch, location: Location, data: seq<Row>)

  predicate Readable(reading: Read) { reading.location.firstRowRead >= 1 && ROW_NUMBER !in reading.watch.header }

  predicate GoesThrough(reading: Read)
    requires Readable(reading)
  {
    Watchable(reading.watch, reading.location, reading.data)
  }

  function Live(reading: Read): seq<PolledRow>
    requires Readable(reading)
  {
    LiveRows(reading.watch, reading.location, reading.data, |reading.data|)
  }

  /** What a reader knows of a row is a row of this number and fingerprint, as it was read or as an item showed it. */
  ghost predicate Stands(reading: Read, row: PolledRow, shown: map<nat, Item>, n: nat, hash: string) {
    && Readable(reading) && row in Live(reading) && row.number == n && row.hash == hash
    && (n in shown ==> exists p: Cursor :: shown[n] == EmissionOf(AnyUpdate, p, reading.watch.header, row))
  }

  ghost predicate Known(readings: seq<Read>, shown: map<nat, Item>, n: nat, hash: string) {
    exists i: nat, row: PolledRow :: i < |readings| && Stands(readings[i], row, shown, n, hash)
  }

  lemma KnownLater(readings: seq<Read>, k: nat, shown: map<nat, Item>, later: map<nat, Item>, n: nat, hash: string)
    requires k < |readings| && Known(readings[..k], shown, n, hash)
    requires (n in later <==> n in shown) && (n in shown ==> later[n] == shown[n])
    ensures Known(readings[..k + 1], later, n, hash)
  {
    hide EmissionOf, Live, Readable;
    var i: nat, row: PolledRow :| i < k && Stands(readings[..k][i], row, shown, n, hash);
    assert readings[..k + 1][i] == readings[..k][i];
    assert Stands(readings[..k + 1][i], row, later, n, hash);
  }

  lemma KnownNow(readings: seq<Read>, k: nat, row: PolledRow, shown: map<nat, Item>, n: nat, hash: string)
    requires k < |readings| && Stands(readings[k], row, shown, n, hash)
    ensures Known(readings[..k + 1], shown, n, hash)
  {
    hide Stands;
    assert readings[..k + 1][k] == readings[k];
  }

  lemma StillKnown(readings: seq<Read>, k: nat, shown: map<nat, Item>, rows: map<nat, string>)
    requires k < |readings| && forall n <- rows :: Known(readings[..k], shown, n, rows[n])
    ensures forall n <- rows :: Known(readings[..k + 1], shown, n, rows[n])
  {
    hide Known;
    forall n | n in rows ensures Known(readings[..k + 1], shown, n, rows[n]) {
      KnownLater(readings, k, shown, shown, n, rows[n]);
    }
  }

  lemma BaselineKnown(readings: seq<Read>, k: nat, shown: map<nat, Item>)
    requires k < |readings| && Readable(readings[k]) && shown == map[]
    ensures var rows := RowsOf(Live(readings[k])); forall n <- rows :: Known(readings[..k + 1], shown, n, rows[n])
  {
    hide Known, EmissionOf, LiveRows;
    var r := readings[k];
    var rows := Live(r);
    LiveRowsAscend(r.watch, r.location, r.data, |r.data|);
    CursorHolds(rows);
    forall n | n in RowsOf(rows) ensures Known(readings[..k + 1], shown, n, RowsOf(rows)[n]) {
      var at :| 0 <= at < |rows| && rows[at].number == n;
      KnownNow(readings, k, rows[at], shown, n, RowsOf(rows)[n]);
    }
  }

  lemma OneOfANumber(rows: seq<PolledRow>, at: nat)
    requires Ascending(rows) && at < |rows|
    ensures forall j :: 0 <= j < |rows| && rows[j].number == rows[at].number ==> j == at
  {
    forall j | 0 <= j < |rows| && j != at ensures rows[j].number != rows[at].number {
      assert rows[if j < at then j else at].number < rows[if j < at then at else j].number;
    }
  }

  lemma UnreportedIsOld(previous: Cursor, row: PolledRow)
    requires !Reports(AnyUpdate, previous, row)
    ensures row.number in previous.rows && previous.rows[row.number] == row.hash
  {
  }

  lemma TickKnown(readings: seq<Read>, k: nat, shown: map<nat, Item>, previous: Cursor)
    requires k < |readings| && Readable(readings[k])
    requires forall n <- previous.rows :: Known(readings[..k], shown, n, previous.rows[n])
    ensures var r := readings[k];
            var seen := ShownBy(shown, Reported(AnyUpdate, previous, r.watch.header, Live(r)));
            var rows := RowsOf(Live(r));
      forall n <- rows :: Known(readings[..k + 1], seen, n, rows[n])
  {
    hide Known, EmissionOf, LiveRows, Reported, ShownBy, LaidOver, RowsOf, Reports, Ascending, IsAdded, IsChanged;
    var r := readings[k];
    var rows := Live(r);
    var seen := ShownBy(shown, Reported(AnyUpdate, previous, r.watch.header, rows));
    LiveRowsAscend(r.watch, r.location, r.data, |r.data|);
    CursorHolds(rows);
    forall n | n in RowsOf(rows) ensures Known(readings[..k + 1], seen, n, RowsOf(rows)[n]) {
      var at :| 0 <= at < |rows| && rows[at].number == n;
      ReportedAt(map[], shown, previous, r.watch.header, rows, RowsOf(rows), n);
      if Reports(AnyUpdate, previous, rows[at]) {
        assert Stands(r, rows[at], seen, n, rows[at].hash);
        KnownNow(readings, k, rows[at], seen, n, rows[at].hash);
      } else {
        OneOfANumber(rows, at);
        UnreportedIsOld(previous, rows[at]);
        KnownLater(readings, k, shown, seen, n, rows[at].hash);
      }
    }
  }

  /**
   Polling for any update on and on, ticks that fail for want of a header or at
   the row cap included.
   The baseline overlaid with the emitted items has the current fingerprint of
   every row of the cursor, and what a reader was last shown of such a row, if
   anything, is the item of a row of its number and current fingerprint.
   */
  method PollOnAndOn(readings: seq<Read>)
    returns (overlay: map<nat, string>, shown: map<nat, Item>, cursor: Option<Cursor>)
    requires forall k :: 0 <= k < |readings| ==> Readable(readings[k])
    ensures cursor.Some? ==> Covers(overlay, cursor.value.rows)
    ensures cursor.Some? ==> forall n <- cursor.value.rows :: Known(readings, shown, n, cursor.value.rows[n])
    ensures cursor.Some? <==> exists k :: 0 <= k < |readings| && GoesThrough(readings[k])
    ensures readings != [] && GoesThrough(readings[|readings| - 1]) ==>
      cursor == Some(CursorOf(Live(readings[|readings| - 1])))
  {
    hide Known, LiveRows, Reported, Kept;
    overlay, shown, cursor := map[], map[], None;
    for k := 0 to |readings|
      invariant cursor.None? ==> shown == map[]
      invariant cursor.Some? ==> Kept(cursor.value) && Covers(overlay, cursor.value.rows)
      invariant cursor.Some? ==> forall n <- cursor.value.rows :: Known(readings[..k], shown, n, cursor.value.rows[n])
      invariant cursor.Some? <==> exists i :: 0 <= i < k && GoesThrough(readings[i])
      invariant k > 0 && GoesThrough(readings[k - 1]) ==> cursor == Some(CursorOf(Live(readings[k - 1])))
    {
      var reading := readings[k];
      var emitted, next, ok := Poll(reading.watch, reading.location, AnyUpdate, reading.data, cursor);
      if !ok {
        if cursor.Some? {
          StillKnown(readings, k, shown, cursor.value.rows);
        }
        continue;
      }
      if cursor.None? {
        BaselineKnown(readings, k, shown);
        assert next.value.rows == RowsOf(Live(reading));
        assert forall n <- next.value.rows :: Known(readings[..k + 1], shown, n, next.value.rows[n]);
        overlay := next.value.rows;
      } else {
        TickKnown(readings, k, shown, cursor.value);
        LiveRowsAscend(reading.watch, reading.location, reading.data, |reading.data|);
        OverlayStep(overlay, cursor.value, reading.watch.header, Live(reading));
        overlay := LaidOver(overlay, emitted, next.value.rows);
        shown := ShownBy(shown, emitted);
        assert forall n <- next.value.rows :: Known(readings[..k + 1], shown, n, next.value.rows[n]);
      }
      cursor := next;
    }
    assert readings[..|readings|] == readings;
  }
}
