/**
 Writing rows to a Google sheet (nodes/google_sheets_write.go): the values a
 sheet holds, what one call to Google does to them, and what a batch of
 updates amounts to.
 */
module Sheets {
  import opened Wrappers
  import Order

  /** A JSON value as a cell sees it; structured data is known by its JSON text. */
  datatype Value = Null | Text(text: string) | Number(number: real) | Bool(flag: bool) | Structured(json: string)

  type Row = seq<Value>

  /** What the grid holds: rows are counted from 1, columns from 0, and empty cells are left out. */
  type Cells = map<(nat, nat), Value>

  /** One read: a range and how its values and dates are rendered. */
  datatype Reading = Reading(range: string, render: string, dates: string)

  /** Google's side: what a range answers, what an entered value becomes, and how a number prints. */
  datatype Google = Google(
    answer: (Cells, Reading) -> seq<Row>, enter: (string, Value) -> Value, shown: real -> string)

  function Answer(g: Google, cells: Cells, key: Reading): seq<Row> { g.answer(cells, key) }

  function CellText(g: Google, v: Value): string {
    match v
    case Null => ""
    case Text(t) => t
    case Number(n) => g.shown(n)
    case Bool(b) => if b then "true" else "false"
    case Structured(json) => json
  }

  /** A cell counts as empty only if it is null or an empty text. */
  predicate EmptyCell(v: Value) { v == Null || v == Text("") }

  predicate EmptyRow(cells: Row) { forall k :: 0 <= k < |cells| ==> EmptyCell(cells[k]) }

  /** What is sent for a value: the value itself, but for structured data a text. */
  function CellOf(v: Value): Value { if v.Structured? then Text(v.json) else v }

  /** The texts that matching and headings see: nothing for null, and a number as it prints. */
  lemma TextsOfValues(g: Google, t: string, n: real)
    ensures CellText(g, Null) == "" && CellText(g, Text(t)) == t && CellText(g, Number(n)) == g.shown(n)
    ensures CellText(g, Bool(true)) == "true" && CellText(g, Bool(false)) == "false" && CellText(g, Structured(t)) == t
  {
  }

  /** What a value leaves in its cell: nothing for null and empty text, and of structured data its JSON text. */
  function Entered(g: Google, mode: string, v: Value): Option<Value> {
    match v
    case Null => None
    case Text(t) => if t == "" then None else Some(g.enter(mode, Text(t)))
    case Number(n) => Some(g.enter(mode, Number(n)))
    case Bool(b) => Some(g.enter(mode, Bool(b)))
    case Structured(json) => if json == "" then None else Some(g.enter(mode, Text(json)))
  }

  // ----- One write --------------------------------------------------------

  function Look(cells: Cells, r: nat, c: nat): Option<Value> {
    if (r, c) in cells then Some(cells[(r, c)]) else None
  }

  /** A written cell: null leaves it alone, empty text clears it. */
  function Written(g: Google, mode: string, before: Option<Value>, v: Value): Option<Value> {
    if v == Null then before else if v == Text("") then None else Some(g.enter(mode, v))
  }

  function PutCell(g: Google, mode: string, cells: Cells, r: nat, c: nat, v: Value): (after: Cells)
    ensures Look(after, r, c) == Written(g, mode, Look(cells, r, c), v)
    ensures forall i: nat, j: nat :: (i, j) != (r, c) ==> Look(after, i, j) == Look(cells, i, j)
  {
    if v == Null then cells
    else if v == Text("") then map k | k in cells && k != (r, c) :: cells[k]
    else cells[(r, c) := g.enter(mode, v)]
  }

  /** The cells of one row, from column c on. */
  function PutRow(g: Google, mode: string, cells: Cells, r: nat, row: Row, c: nat): Cells
    requires c <= |row|
    decreases |row| - c
  {
    if c == |row| then cells else PutRow(g, mode, PutCell(g, mode, cells, r, c, row[c]), r, row, c + 1)
  }

  lemma {:induction false} PutRowAt(g: Google, mode: string, cells: Cells, r: nat, row: Row, c: nat, i: nat, j: nat)
    requires c <= |row|
    ensures Look(PutRow(g, mode, cells, r, row, c), i, j) ==
      if i == r && c <= j < |row| then Written(g, mode, Look(cells, i, j), row[j]) else Look(cells, i, j)
    decreases |row| - c
  {
    if c < |row| {
      PutRowAt(g, mode, PutCell(g, mode, cells, r, c, row[c]), r, row, c + 1, i, j);
    }
  }

  /** Consecutive rows, the first of them at row r. */
  function PutRows(g: Google, mode: string, cells: Cells, r: nat, rows: seq<Row>): Cells
    decreases rows
  {
    if rows == [] then cells
    else PutRows(g, mode, PutRow(g, mode, cells, r, rows[0], 0), r + 1, rows[1..])
  }

  lemma {:induction false} PutRowsAt(g: Google, mode: string, cells: Cells, r: nat, rows: seq<Row>, i: nat, j: nat)
    ensures Look(PutRows(g, mode, cells, r, rows), i, j) ==
      if r <= i < r + |rows| && j < |rows[i - r]| then Written(g, mode, Look(cells, i, j), rows[i - r][j])
      else Look(cells, i, j)
    decreases rows
  {
    if rows != [] {
      PutRowAt(g, mode, cells, r, rows[0], 0, i, j);
      PutRowsAt(g, mode, PutRow(g, mode, cells, r, rows[0], 0), r + 1, rows[1..], i, j);
    }
  }

  /** One cell of a batch write. */
  datatype Write = Write(row: nat, column: nat, value: Value)

  function PutBatch(g: Google, mode: string, cells: Cells, writes: seq<Write>): Cells
    decreases |writes|
  {
    if writes == [] then cells else
    var w := writes[|writes| - 1];
    PutCell(g, mode, PutBatch(g, mode, cells, writes[..|writes| - 1]), w.row, w.column, w.value)
  }

  /** The last value a batch writes to a cell. */
  function LastAt(writes: seq<Write>, r: nat, c: nat): Option<Value>
    decreases |writes|
  {
    if writes == [] then None else
    var w := writes[|writes| - 1];
    if w.row == r && w.column == c then Some(w.value) else LastAt(writes[..|writes| - 1], r, c)
  }

  predicate NoNulls(writes: seq<Write>) { forall k :: 0 <= k < |writes| ==> writes[k].value != Null }

  lemma {:induction false} PutBatchAt(g: Google, mode: string, cells: Cells, writes: seq<Write>, r: nat, c: nat)
    requires NoNulls(writes)
    ensures Look(PutBatch(g, mode, cells, writes), r, c) ==
      var last := LastAt(writes, r, c);
      if last.None? then Look(cells, r, c) else Written(g, mode, None, last.value)
    ensures LastAt(writes, r, c).Some? ==> LastAt(writes, r, c).value != Null
    decreases |writes|
  {
    if writes != [] {
      PutBatchAt(g, mode, cells, writes[..|writes| - 1], r, c);
    }
  }

  // ----- The columns of a write -------------------------------------------

  const ROW_NUMBER := "row_number"

  /** What one item brings to a write; auto says that every field of the item was taken over. */
  datatype ItemData = ItemData(values: map<string, Value>, auto: bool)

  /** One cell for every heading: the field of that name, or missing. */
  function RowFor(header: seq<string>, values: map<string, Value>, missing: Value): (row: Row)
    ensures |row| == |header|
    ensures forall c :: 0 <= c < |header| ==> row[c] == FieldFor(header[c], values, missing)
  {
    if header == [] then [] else [FieldFor(header[0], values, missing)] + RowFor(header[1..], values, missing)
  }

  function FieldFor(name: string, values: map<string, Value>, missing: Value): Value {
    if name !in values || values[name] == Null || name == ROW_NUMBER then missing else CellOf(values[name])
  }

  /** An item's own value for a column, null when it has none; row_number is never a value to write. */
  function Given(values: map<string, Value>, name: string): Value {
    if name in values && name != "row_number" then values[name] else Null
  }

  /** A laid-out field covers whatever the cell held with the item's own value, or with nothing. */
  lemma FieldEnters(g: Google, mode: string, before: Option<Value>, name: string, values: map<string, Value>)
    ensures Written(g, mode, before, FieldFor(name, values, Text(""))) == Entered(g, mode, Given(values, name))
  {
  }

  /** What automatic items bring that is neither a heading nor row_number. */
  function ExtraKeys(header: seq<string>, data: seq<ItemData>): set<string> {
    set k: nat, key | k < |data| && data[k].auto && key in data[k].values && key != ROW_NUMBER && key !in header :: key
  }

  ghost function ExtraColumns(header: seq<string>, data: seq<ItemData>): seq<string> {
    Order.Sorted(ExtraKeys(header, data))
  }

  function HeaderOf(g: Google, rows: seq<Row>, headerRow: nat): seq<string>
    requires headerRow >= 1
  {
    if headerRow - 1 >= |rows| then [] else Texts(g, rows[headerRow - 1])
  }

  function Texts(g: Google, row: Row): (names: seq<string>)
    ensures |names| == |row| && forall c :: 0 <= c < |row| ==> names[c] == CellText(g, row[c])
  {
    if row == [] then [] else [CellText(g, row[0])] + Texts(g, row[1..])
  }

  function NameCells(names: seq<string>): (row: Row)
    ensures |row| == |names| && forall c :: 0 <= c < |names| ==> row[c] == Text(names[c])
  {
    if names == [] then [] else [Text(names[0])] + NameCells(names[1..])
  }

  // ----- Matching rows ----------------------------------------------------

  /** The sheet as the batch found it. */
  datatype Snapshot = Snapshot(rows: seq<Row>, header: seq<string>, headerRow: nat, firstDataRow: nat)

  predicate ValidSnapshot(s: Snapshot) {
    s.headerRow >= 1 && s.firstDataRow >= 1 && (s.header != [] ==> s.headerRow <= |s.rows|)
  }

  function IndexOf(names: seq<string>, name: string): (r: Option<nat>)
    ensures r.Some? ==> r.value < |names| && names[r.value] == name
    ensures r.Some? ==> forall k :: 0 <= k < r.value ==> names[k] != name
    ensures r.None? <==> name !in names
  {
    if names == [] then None
    else if names[0] == name then Some(0)
    else
      var rest := IndexOf(names[1..], name);
      if rest.None? then None else Some(rest.value + 1)
  }

  function TextAt(g: Google, row: Row, c: nat): string { if c < |row| then CellText(g, row[c]) else "" }

  /** The match column's texts, from row index r on. */
  function KeyTexts(g: Google, rows: seq<Row>, c: nat, r: nat): (keys: seq<string>)
    ensures |keys| == if r <= |rows| then |rows| - r else 0
    ensures forall k :: 0 <= k < |keys| ==> keys[k] == TextAt(g, rows[r + k], c)
    decreases if r < |rows| then |rows| - r else 0
  {
    if r >= |rows| then [] else [TextAt(g, rows[r], c)] + KeyTexts(g, rows, c, r + 1)
  }

  datatype Refusal =
    | NoColumns
    | NothingMapped(item: nat)
    | NoMatchColumn
    | ExtraFields
    | UnknownColumn
    | EmptyMatch(item: nat)
    | NotARow(item: nat)
    | CallFailed

  /** How a row number is read out of a value; the parsing is a parameter. */
  type WholeNumber = Value -> Option<int>

  function ReadRowNumber(w: WholeNumber, v: Value): Option<int> { w(v) }

  /** What the matching depends on: the match column and its texts, or row numbers. */
  datatype Matcher = ByColumn(name: string, keys: seq<string>, firstDataRow: nat) | ByRowNumber(read: WholeNumber)

  function MatchName(m: Matcher): string { if m.ByColumn? then m.name else ROW_NUMBER }

  /** The row an item is matched to, 0 for none. */
  function RowOf(g: Google, m: Matcher, item: ItemData, index: nat): Result<nat, Refusal> {
    var name := MatchName(m);
    var has := name in item.values && item.values[name] != Null;
    var blank := has && CellText(g, item.values[name]) == "";
    if !item.auto && (!has || blank) then Err(EmptyMatch(index))
    else if !has || blank then Ok(0)
    else if m.ByRowNumber? then
      var n := ReadRowNumber(m.read, item.values[name]);
      if n.None? || n.value < 1 then Err(NotARow(index)) else Ok(n.value)
    else
      var position := IndexOf(m.keys, CellText(g, item.values[name]));
      Ok(if position.None? then 0 else m.firstDataRow + position.value)
  }

  /** Whether an item writes the column of this name once it is matched. */
  predicate Sends(m: Matcher, item: ItemData, name: string) {
    name != MatchName(m) && name != ROW_NUMBER && name in item.values && item.values[name] != Null
  }

  function SentValue(m: Matcher, item: ItemData, name: string): Value
    requires Sends(m, item, name)
  {
    CellOf(item.values[name])
  }

  function ItemWrites(m: Matcher, header: seq<string>, item: ItemData, row: nat, c: nat): (writes: seq<Write>)
    requires c <= |header|
  {
    if c == 0 then [] else
    var before := ItemWrites(m, header, item, row, c - 1);
    var name := header[c - 1];
    if Sends(m, item, name) then before + [Write(row, c - 1, SentValue(m, item, name))] else before
  }

  datatype Plan = Plan(writes: seq<Write>, appended: seq<Row>)

  /** The writes and the appended rows of the first n items, in order, or the first refusal. */
  function PlanFor(g: Google, m: Matcher, header: seq<string>, upsert: bool, data: seq<ItemData>, n: nat)
    : Result<Plan, Refusal>
    requires n <= |data|
  {
    if n == 0 then Ok(Plan([], [])) else
    var before := PlanFor(g, m, header, upsert, data, n - 1);
    if before.Err? then before else
    var item := data[n - 1];
    var row := RowOf(g, m, item, n - 1);
    if row.Err? then Err(row.error)
    else if row.value != 0 then
      Ok(before.value.(writes := before.value.writes + ItemWrites(m, header, item, row.value, |header|)))
    else if upsert then Ok(before.value.(appended := before.value.appended + [RowFor(header, item.values, Text(""))]))
    else before
  }

  // ----- What a batch of updates amounts to -------------------------------

  /** Item k is matched to a row and has a value of its own for one of the columns. */
  predicate SendsSomething(g: Google, m: Matcher, header: seq<string>, data: seq<ItemData>, k: nat)
    requires k < |data|
  {
    && RowOf(g, m, data[k], k).Ok? && RowOf(g, m, data[k], k).value != 0
    && exists c :: 0 <= c < |header| && header[c] != MatchName(m) && Given(data[k].values, header[c]) != Null
  }

  lemma {:induction false} NothingToSendIff(m: Matcher, header: seq<string>, item: ItemData, row: nat, n: nat)
    requires n <= |header|
    ensures ItemWrites(m, header, item, row, n) == [] <==>
      forall c :: 0 <= c < n ==> header[c] == MatchName(m) || Given(item.values, header[c]) == Null
    decreases n
  {
    hide Sends, SentValue, Given, MatchName;
    if n > 0 {
      NothingToSendIff(m, header, item, row, n - 1);
      SendsIff(m, item, header[n - 1]);
    }
  }

  /** Nothing is written exactly when no item sends anything. */
  lemma {:induction false} NothingWrittenIff(g: Google, m: Matcher, header: seq<string>, upsert: bool,
                                             data: seq<ItemData>, n: nat)
    requires n <= |data| && PlanFor(g, m, header, upsert, data, n).Ok?
    ensures PlanFor(g, m, header, upsert, data, n).value.writes == [] <==>
      forall k :: 0 <= k < n ==> !SendsSomething(g, m, header, data, k)
    decreases n
  {
    hide RowOf, ItemWrites, Given, MatchName;
    if n > 0 {
      NothingWrittenIff(g, m, header, upsert, data, n - 1);
      var row := RowOf(g, m, data[n - 1], n - 1);
      if row.value != 0 {
        NothingToSendIff(m, header, data[n - 1], row.value, |header|);
        var before := PlanFor(g, m, header, upsert, data, n - 1).value.writes;
        var own := ItemWrites(m, header, data[n - 1], row.value, |header|);
        assert before + own == [] <==> before == [] && own == [];
        assert SendsSomething(g, m, header, data, n - 1) <==> own != [];
      }
    }
  }

  /** The last value of its own, not null, that an item matched to row r has for column c. */
  function LastSent(g: Google, m: Matcher, header: seq<string>, data: seq<ItemData>, n: nat, r: nat,
                    c: nat): Option<Value>
    requires n <= |data|
  {
    if n == 0 then None
    else if RowOf(g, m, data[n - 1], n - 1) == Ok(r) && c < |header| && header[c] != MatchName(m)
      && Given(data[n - 1].values, header[c]) != Null then Some(Given(data[n - 1].values, header[c]))
    else LastSent(g, m, header, data, n - 1, r, c)
  }

  lemma SendsIff(m: Matcher, item: ItemData, name: string)
    ensures Sends(m, item, name) <==> name != MatchName(m) && Given(item.values, name) != Null
    ensures Sends(m, item, name) ==> SentValue(m, item, name) == CellOf(Given(item.values, name))
  {
    hide MatchName;
  }

  lemma SentEnters(g: Google, mode: string, v: Value)
    requires v != Null
    ensures Written(g, mode, None, CellOf(v)) == Entered(g, mode, v) && CellOf(v) != Null
  {
  }

  lemma {:induction false} ItemWritesAt(m: Matcher, header: seq<string>, item: ItemData, row: nat, n: nat,
                                        before: seq<Write>, r: nat, c: nat)
    requires n <= |header|
    ensures LastAt(before + ItemWrites(m, header, item, row, n), r, c) ==
      if r == row && c < n && Sends(m, item, header[c]) then Some(SentValue(m, item, header[c]))
      else LastAt(before, r, c)
    decreases n
  {
    hide Sends, SentValue, LastAt;
    if n == 0 {
      assert before + [] == before;
    } else {
      ItemWritesAt(m, header, item, row, n - 1, before, r, c);
      var writes := ItemWrites(m, header, item, row, n - 1);
      var name := header[n - 1];
      if Sends(m, item, name) {
        var w := Write(row, n - 1, SentValue(m, item, name));
        assert before + (writes + [w]) == before + writes + [w];
        LastAtAppend(before + writes, w, r, c);
      }
    }
  }

  lemma LastAtAppend(writes: seq<Write>, w: Write, r: nat, c: nat)
    ensures LastAt(writes + [w], r, c) == if w.row == r && w.column == c then Some(w.value) else LastAt(writes, r, c)
  {
    assert (writes + [w])[..|writes|] == writes;
  }

  lemma {:induction false} ItemWritesNoNulls(m: Matcher, header: seq<string>, item: ItemData, row: nat, n: nat)
    requires n <= |header|
    ensures NoNulls(ItemWrites(m, header, item, row, n))
    decreases n
  {
    if n > 0 {
      ItemWritesNoNulls(m, header, item, row, n - 1);
    }
  }

  /** The batch's last write to a cell is the last value of its own that an item matched to its row has for it. */
  lemma {:induction false} PlanWritesLastSent(g: Google, m: Matcher, header: seq<string>, upsert: bool,
                                              data: seq<ItemData>, n: nat, r: nat, c: nat)
    requires n <= |data| && r >= 1 && PlanFor(g, m, header, upsert, data, n).Ok?
    ensures var plan := PlanFor(g, m, header, upsert, data, n).value;
      var sent := LastSent(g, m, header, data, n, r, c);
      && NoNulls(plan.writes) && (sent.Some? ==> sent.value != Null)
      && LastAt(plan.writes, r, c) == if sent.None? then None else Some(CellOf(sent.value))
    decreases n
  {
    if n > 0 {
      PlanWritesLastSent(g, m, header, upsert, data, n - 1, r, c);
      var row := RowOf(g, m, data[n - 1], n - 1);
      if row.value != 0 {
        var before := PlanFor(g, m, header, upsert, data, n - 1).value.writes;
        ItemWritesAt(m, header, data[n - 1], row.value, |header|, before, r, c);
        ItemWritesNoNulls(m, header, data[n - 1], row.value, |header|);
        if c < |header| {
          SendsIff(m, data[n - 1], header[c]);
        }
      }
    }
  }

  /** The items no row was found for, in order. */
  function Unmatched(g: Google, m: Matcher, data: seq<ItemData>, n: nat): seq<ItemData>
    requires n <= |data|
  {
    if n == 0 then [] else
    Unmatched(g, m, data, n - 1) + (if RowOf(g, m, data[n - 1], n - 1) == Ok(0) then [data[n - 1]] else [])
  }

  function RowsFor(header: seq<string>, items: seq<ItemData>): (rows: seq<Row>)
    ensures |rows| == |items|
    ensures forall k :: 0 <= k < |items| ==> rows[k] == RowFor(header, items[k].values, Text(""))
  {
    if items == [] then []
    else RowsFor(header, items[..|items| - 1]) + [RowFor(header, items[|items| - 1].values, Text(""))]
  }

  lemma {:induction false} PlanAppendsUnmatched(g: Google, m: Matcher, header: seq<string>, upsert: bool,
                                                data: seq<ItemData>, n: nat)
    requires n <= |data| && PlanFor(g, m, header, upsert, data, n).Ok?
    ensures PlanFor(g, m, header, upsert, data, n).value.appended
         == if upsert then RowsFor(header, Unmatched(g, m, data, n)) else []
    decreases n
  {
    hide RowFor, ItemWrites;
    if n > 0 {
      PlanAppendsUnmatched(g, m, header, upsert, data, n - 1);
      if RowOf(g, m, data[n - 1], n - 1) == Ok(0) {
        var items := Unmatched(g, m, data, n);
        assert items[..|items| - 1] == Unmatched(g, m, data, n - 1);
      }
    }
  }

  /** The first row that appended rows go to. */
  function FirstFree(s: Snapshot): nat { LastRow(|s.rows|, s.headerRow, s.header) + 1 }

  function LastRow(used: nat, headerRow: nat, header: seq<string>): nat {
    if used < headerRow && header != [] then headerRow else used
  }

  /** No cell below row n holds anything. */
  predicate UsedWithin(cells: Cells, n: nat) { forall k <- cells :: k.0 <= n }

  /** The sheet after a plan is carried out. */
  function Carried(g: Google, mode: string, cells: Cells, s: Snapshot, plan: Plan): Cells {
    PutRows(g, mode, PutBatch(g, mode, cells, plan.writes), FirstFree(s), plan.appended)
  }

  /** One cell after a plan is carried out: an appended row over the batch's last write over what was there. */
  lemma CarriedAt(g: Google, mode: string, cells: Cells, s: Snapshot, plan: Plan, r: nat, c: nat)
    requires NoNulls(plan.writes)
    ensures var last := LastAt(plan.writes, r, c);
            var before := if last.None? then Look(cells, r, c) else Written(g, mode, None, last.value);
            var first := FirstFree(s);
      Look(Carried(g, mode, cells, s, plan), r, c) ==
        if first <= r < first + |plan.appended| && c < |plan.appended[r - first]|
        then Written(g, mode, before, plan.appended[r - first][c]) else before
  {
    hide Written, NoNulls, LastRow;
    PutBatchAt(g, mode, cells, plan.writes, r, c);
    PutRowsAt(g, mode, PutBatch(g, mode, cells, plan.writes), FirstFree(s), plan.appended, r, c);
  }

  predicate MatchesSnapshot(g: Google, m: Matcher, s: Snapshot)
    requires ValidSnapshot(s)
  {
    m.ByColumn? ==>
      && m.name in s.header && m.firstDataRow == s.firstDataRow
      && m.keys == KeyTexts(g, s.rows, IndexOf(s.header, m.name).value, s.firstDataRow - 1)
  }

  /**
   A match by column finds the first row of the snapshot whose cell reads the
   same, at or after the first data row.
   */
  lemma ColumnMatchFinds(g: Google, m: Matcher, s: Snapshot, item: ItemData, index: nat)
    requires ValidSnapshot(s) && m.ByColumn? && MatchesSnapshot(g, m, s)
    requires RowOf(g, m, item, index).Ok? && RowOf(g, m, item, index).value != 0
    ensures var r := RowOf(g, m, item, index).value;
            var c := IndexOf(s.header, m.name).value;
            var wanted := CellText(g, item.values[m.name]);
      && s.firstDataRow <= r <= |s.rows|
      && TextAt(g, s.rows[r - 1], c) == wanted
      && forall k :: s.firstDataRow - 1 <= k < r - 1 ==> TextAt(g, s.rows[k], c) != wanted
  {
    hide CellText, TextAt;
    var r := RowOf(g, m, item, index).value;
    var wanted := CellText(g, item.values[m.name]);
    var c := IndexOf(s.header, m.name).value;
    var position := IndexOf(m.keys, wanted).value;
    assert m.keys[position] == TextAt(g, s.rows[s.firstDataRow - 1 + position], c);
    forall k | s.firstDataRow - 1 <= k < r - 1 ensures TextAt(g, s.rows[k], c) != wanted {
      assert m.keys[k - (s.firstDataRow - 1)] != wanted;
    }
  }

  /**
   Matching refuses an item exactly when it is mapped by hand and has nothing
   to match, or gives a row number that is not a whole number of at least one.
   */
  lemma MatchRefusedIff(g: Google, m: Matcher, item: ItemData, index: nat)
    ensures var name := if m.ByColumn? then m.name else "row_number";
            var blank := name !in item.values || item.values[name] == Null || CellText(g, item.values[name]) == "";
      && (RowOf(g, m, item, index).Err? <==>
        if blank then !item.auto
        else
          && m.ByRowNumber?
          && (ReadRowNumber(m.read, item.values[name]).None? || ReadRowNumber(m.read, item.values[name]).value < 1))
      && (RowOf(g, m, item, index).Err? ==>
        RowOf(g, m, item, index).error == if blank then EmptyMatch(index) else NotARow(index))
  {
    hide CellText;
  }

  /** Matched by number an item goes to the row it names, and to none when it names nothing. */
  lemma NumberMatchIs(g: Google, m: Matcher, item: ItemData, index: nat)
    requires m.ByRowNumber? && RowOf(g, m, item, index).Ok?
    ensures var blank := "row_number" !in item.values || item.values["row_number"] == Null
              || CellText(g, item.values["row_number"]) == "";
      if blank then RowOf(g, m, item, index) == Ok(0)
      else ReadRowNumber(m.read, item.values["row_number"]) == Some(RowOf(g, m, item, index).value)
  {
    hide CellText;
  }

  /**
   A match by column finds nothing exactly when an automatic item has nothing
   to match, or no row of the snapshot from the first data row on reads the same.
   */
  lemma ColumnMatchFindsNoneIff(g: Google, m: Matcher, s: Snapshot, item: ItemData, index: nat)
    requires ValidSnapshot(s) && m.ByColumn? && MatchesSnapshot(g, m, s)
    ensures RowOf(g, m, item, index) == Ok(0) <==>
      var c := IndexOf(s.header, m.name).value;
      if m.name !in item.values || item.values[m.name] == Null || CellText(g, item.values[m.name]) == "" then item.auto
      else forall k :: s.firstDataRow - 1 <= k < |s.rows| ==>
        TextAt(g, s.rows[k], c) != CellText(g, item.values[m.name])
  {
    hide CellText, TextAt;
    var c := IndexOf(s.header, m.name).value;
    if m.name in item.values && item.values[m.name] != Null && CellText(g, item.values[m.name]) != "" {
      var wanted := CellText(g, item.values[m.name]);
      if wanted in m.keys {
        ColumnMatchFinds(g, m, s, item, index);
      } else {
        forall k | s.firstDataRow - 1 <= k < |s.rows| ensures TextAt(g, s.rows[k], c) != wanted {
          assert m.keys[k - (s.firstDataRow - 1)] != wanted;
        }
      }
    }
  }

  lemma {:induction false} LastSentRow(g: Google, m: Matcher, s: Snapshot, data: seq<ItemData>, n: nat, r: nat, c: nat)
    requires ValidSnapshot(s) && m.ByColumn? && MatchesSnapshot(g, m, s) && n <= |data| && r >= 1
    requires LastSent(g, m, s.header, data, n, r, c).Some?
    ensures s.firstDataRow <= r <= |s.rows| && c < |s.header| && s.header[c] != m.name && s.header[c] != ROW_NUMBER
    ensures LastSent(g, m, s.header, data, n, r, c).value != Null
    decreases n
  {
    hide RowOf, CellText, MatchesSnapshot;
    if RowOf(g, m, data[n - 1], n - 1) == Ok(r) && c < |s.header| && s.header[c] != MatchName(m)
      && Given(data[n - 1].values, s.header[c]) != Null
    {
      ColumnMatchFinds(g, m, s, data[n - 1], n - 1);
    } else {
      LastSentRow(g, m, s, data, n - 1, r, c);
    }
  }

  /**
   After a batch each cell holds what an appended item's own value enters, or
   else the last value an item matched to its row has for it, or else what it
   held. However rows are matched, an appended cell covers whatever was there.
   */
  lemma UpdateCells(g: Google, mode: string, cells: Cells, s: Snapshot, m: Matcher, upsert: bool, data: seq<ItemData>,
                    r: nat, c: nat)
    requires r >= 1 && PlanFor(g, m, s.header, upsert, data, |data|).Ok?
    ensures var after := Carried(g, mode, cells, s, PlanFor(g, m, s.header, upsert, data, |data|).value);
            var items := if upsert then Unmatched(g, m, data, |data|) else [];
            var sent := LastSent(g, m, s.header, data, |data|, r, c);
            var first := FirstFree(s);
      Look(after, r, c) ==
        if first <= r < first + |items| && c < |s.header| then
          Entered(g, mode, Given(items[r - first].values, s.header[c]))
        else if sent.Some? then Entered(g, mode, sent.value)
        else Look(cells, r, c)
  {
    hide Written, FieldFor, RowOf, LastSent, LastAt, PlanFor, Carried, NoNulls, LastRow, Entered, Given, CellOf;
    var plan := PlanFor(g, m, s.header, upsert, data, |data|).value;
    PlanWritesLastSent(g, m, s.header, upsert, data, |data|, r, c);
    PlanAppendsUnmatched(g, m, s.header, upsert, data, |data|);
    CarriedAt(g, mode, cells, s, plan, r, c);
    var items := if upsert then Unmatched(g, m, data, |data|) else [];
    var first := FirstFree(s);
    var sent := LastSent(g, m, s.header, data, |data|, r, c);
    if sent.Some? {
      SentEnters(g, mode, sent.value);
    }
    if first <= r < first + |items| && c < |s.header| {
      var last := LastAt(plan.writes, r, c);
      var before := if last.None? then Look(cells, r, c) else Written(g, mode, None, last.value);
      FieldEnters(g, mode, before, s.header[c], items[r - first].values);
    }
  }

  /**
   Matched by column a batch never covers what it sent: an item is matched to
   a row that was read, and the unmatched items of an upsert stand below those.
   */
  lemma UpdateByColumn(g: Google, mode: string, cells: Cells, s: Snapshot, m: Matcher, upsert: bool,
                       data: seq<ItemData>, r: nat, c: nat)
    requires ValidSnapshot(s) && m.ByColumn? && MatchesSnapshot(g, m, s) && r >= 1
    requires PlanFor(g, m, s.header, upsert, data, |data|).Ok?
    ensures var after := Carried(g, mode, cells, s, PlanFor(g, m, s.header, upsert, data, |data|).value);
            var items := if upsert then Unmatched(g, m, data, |data|) else [];
            var sent := LastSent(g, m, s.header, data, |data|, r, c);
            var first := FirstFree(s);
      && (sent.Some? ==> r < first)
      && Look(after, r, c) ==
        if sent.Some? then Entered(g, mode, sent.value)
        else if first <= r < first + |items| && c < |s.header| then
          Entered(g, mode, Given(items[r - first].values, s.header[c]))
        else Look(cells, r, c)
  {
    hide Entered, Given, RowOf, LastSent, PlanFor, MatchesSnapshot, Carried;
    UpdateCells(g, mode, cells, s, m, upsert, data, r, c);
    if LastSent(g, m, s.header, data, |data|, r, c).Some? {
      LastSentRow(g, m, s, data, |data|, r, c);
    }
  }

  lemma {:induction false} LastSentSends(g: Google, m: Matcher, header: seq<string>, data: seq<ItemData>, n: nat,
                                         r: nat, c: nat)
    requires n <= |data| && LastSent(g, m, header, data, n, r, c).Some?
    ensures c < |header| && header[c] != MatchName(m) && header[c] != ROW_NUMBER
    decreases n
  {
    hide RowOf, MatchName;
    if !(RowOf(g, m, data[n - 1], n - 1) == Ok(r) && c < |header| && header[c] != MatchName(m)
      && Given(data[n - 1].values, header[c]) != Null)
    {
      LastSentSends(g, m, header, data, n - 1, r, c);
    }
  }

  /**
   What a batch leaves alone above the appended rows: the match column,
   row_number and the columns without a heading, and matched by column also
   the rows above the data.
   */
  lemma UpdateLeavesAlone(g: Google, mode: string, cells: Cells, s: Snapshot, m: Matcher, upsert: bool,
                          data: seq<ItemData>, r: nat, c: nat)
    requires ValidSnapshot(s) && (m.ByColumn? ==> MatchesSnapshot(g, m, s)) && 1 <= r < FirstFree(s)
    requires PlanFor(g, m, s.header, upsert, data, |data|).Ok?
    requires (m.ByColumn? && r < s.firstDataRow)
      || c >= |s.header| || s.header[c] == MatchName(m) || s.header[c] == ROW_NUMBER
    ensures Look(Carried(g, mode, cells, s, PlanFor(g, m, s.header, upsert, data, |data|).value), r, c) ==
      Look(cells, r, c)
  {
    hide Entered, Given, RowOf, LastSent, PlanFor, MatchesSnapshot, Carried, MatchName;
    UpdateCells(g, mode, cells, s, m, upsert, data, r, c);
    if LastSent(g, m, s.header, data, |data|, r, c).Some? {
      LastSentSends(g, m, s.header, data, |data|, r, c);
      if m.ByColumn? {
        LastSentRow(g, m, s, data, |data|, r, c);
      }
    }
  }

  /**
   Matched by row number an upsert can lose a write: a row past the used rows
   is written and then overwritten by an appended row. The written cell of row
   r survives exactly when no appended row lands on r, or the one that does
   enters the same.
   */
  lemma RowNumberWriteSurvivesIff(g: Google, mode: string, cells: Cells, s: Snapshot, m: Matcher, upsert: bool,
                                  data: seq<ItemData>, r: nat, c: nat, v: Value)
    requires m.ByRowNumber? && r >= 1 && c < |s.header|
    requires PlanFor(g, m, s.header, upsert, data, |data|).Ok?
    requires LastSent(g, m, s.header, data, |data|, r, c) == Some(v)
    ensures var after := Carried(g, mode, cells, s, PlanFor(g, m, s.header, upsert, data, |data|).value);
            var items := if upsert then Unmatched(g, m, data, |data|) else [];
            var first := FirstFree(s);
      && Look(after, r, c) == Entered(g, mode,
        if first <= r < first + |items| then Given(items[r - first].values, s.header[c]) else v)
      && (Look(after, r, c) == Entered(g, mode, v) <==>
        first <= r < first + |items| ==>
          Entered(g, mode, Given(items[r - first].values, s.header[c])) == Entered(g, mode, v))
  {
    hide RowOf, LastSent, PlanFor, LastRow, Carried, Entered, Given;
    UpdateCells(g, mode, cells, s, m, upsert, data, r, c);
  }

  /**
   A sheet of one header row, and two items: the first names row 2 by number,
   the second names no row. Row 2 is written and then given to the second
   item, so the first item's value is lost.
   */
  lemma RowNumberWriteLost(g: Google, mode: string, read: WholeNumber)
    requires ReadRowNumber(read, Number(2.0)) == Some(2) && CellText(g, Number(2.0)) != ""
    ensures var s := Snapshot([[Text("a")]], ["a"], 1, 2);
            var data := [ItemData(map["row_number" := Number(2.0), "a" := Text("x")], true),
              ItemData(map["a" := Text("y")], true)];
            var cells := map[(1, 0) := Text("a")];
            var plan := PlanFor(g, ByRowNumber(read), s.header, true, data, 2);
      && plan.Ok? && LastSent(g, ByRowNumber(read), s.header, data, 2, 2, 0) == Some(Text("x"))
      && Look(Carried(g, mode, cells, s, plan.value), 2, 0) == Some(g.enter(mode, Text("y")))
  {
    hide Carried;
    var s := Snapshot([[Text("a")]], ["a"], 1, 2);
    var first := ItemData(map["row_number" := Number(2.0), "a" := Text("x")], true);
    var second := ItemData(map["a" := Text("y")], true);
    var data := [first, second];
    var m := ByRowNumber(read);
    var cells := map[(1, 0) := Text("a")];
    assert RowOf(g, m, first, 0) == Ok(2) && RowOf(g, m, second, 1) == Ok(0);
    assert PlanFor(g, m, s.header, true, data, 0).Ok?;
    assert PlanFor(g, m, s.header, true, data, 1).Ok?;
    assert Unmatched(g, m, data, 0) == [] && Unmatched(g, m, data, 1) == [];
    assert Unmatched(g, m, data, 2) == [second];
    assert LastSent(g, m, s.header, data, 1, 2, 0) == Some(Text("x"));
    RowNumberWriteSurvivesIff(g, mode, cells, s, m, true, data, 2, 0, Text("x"));
  }
}
