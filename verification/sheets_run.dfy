/**
 One run of the Google Sheets node (nodes/google_sheets_write.go and the cache
 of nodes/google_sheets_exec.go): the remote grid, the cached reads, the shadow
 copy of the sheet and the calls that change them.
 */
module SheetsRun {
  import opened Wrappers
  import opened Sheets
  import Order

  datatype Tab = Tab(gid: int, title: string, rows: nat, columns: nat)

  /** What becomes of fields the header does not carry. */
  datatype Extras = InsertColumn | IgnoreField | RefuseField

  datatype Settings = Settings(mode: string, headerRow: int, firstDataRow: int, extras: Extras)

  /** How an item says what it writes. */
  datatype Mapping = Automatic | Manual(values: map<string, Value>)

  datatype Input = Input(json: map<string, Value>, mapping: Mapping)

  function AtLeastOne(n: int): nat { if n < 1 then 1 else n }

  function WholeTab(title: string): Reading { Reading(title, "FORMATTED_VALUE", "") }

  /** A read of the whole tab ends with its last used row. */
  ghost predicate ReadsAllRows(g: Google, title: string) {
    forall cells: Cells :: UsedWithin(cells, |Answer(g, cells, WholeTab(title))|)
  }

  // ----- What a write amounts to ------------------------------------------

  function Cleared(values: map<string, Value>): map<string, Value> {
    map key | key in values :: if values[key] == Null then Text("") else values[key]
  }

  function ItemValues(index: nat, input: Input, forced: bool): Result<ItemData, Refusal> {
    if forced || input.mapping.Automatic? then Ok(ItemData(input.json, true))
    else if input.mapping.values == map[] then Err(NothingMapped(index))
    else Ok(ItemData(Cleared(input.mapping.values), false))
  }

  function DataOf(inputs: seq<Input>, forced: bool, n: nat): (r: Result<seq<ItemData>, Refusal>)
    requires n <= |inputs|
    ensures r.Ok? ==> |r.value| == n
    ensures r.Err? ==> r.error.NothingMapped?
  {
    if n == 0 then Ok([]) else
    var before := DataOf(inputs, forced, n - 1);
    if before.Err? then before else
    var last := ItemValues(n - 1, inputs[n - 1], forced);
    if last.Err? then Err(last.error) else Ok(before.value + [last.value])
  }

  predicate AnyAuto(data: seq<ItemData>) { exists k :: 0 <= k < |data| && data[k].auto }

  predicate KnowsColumns(header: seq<string>, data: seq<ItemData>) {
    forall k :: 0 <= k < |data| && !data[k].auto ==> KnowsKeys(header, data[k].values)
  }

  predicate KnowsKeys(header: seq<string>, values: map<string, Value>) {
    forall key <- values :: key == ROW_NUMBER || key in header
  }

  ghost predicate Grows(extras: Extras, header: seq<string>, data: seq<ItemData>) {
    AnyAuto(data) && extras == InsertColumn && (ExtraColumns(header, data) != [] || header == [])
  }

  ghost function GrownHeader(extras: Extras, header: seq<string>, data: seq<ItemData>): seq<string> {
    if Grows(extras, header, data) then header + ExtraColumns(header, data) else header
  }

  /** Why the columns of a write are refused, if they are. */
  ghost function ColumnRefusal(extras: Extras, header: seq<string>, data: seq<ItemData>): Option<Refusal> {
    if AnyAuto(data) && extras == RefuseField && ExtraColumns(header, data) != [] then Some(ExtraFields)
    else if GrownHeader(extras, header, data) == [] then Some(NoColumns)
    else if !KnowsColumns(GrownHeader(extras, header, data), data) then Some(UnknownColumn)
    else None
  }

  /** Rows with row h replaced, after making there be one. */
  function WithRow(rows: seq<Row>, h: nat, row: Row): (r: seq<Row>)
    requires h >= 1
    ensures |r| == if |rows| < h then h else |rows|
    ensures r[h - 1] == row
    ensures forall k :: 0 <= k < |r| && k != h - 1 ==> r[k] == if k < |rows| then rows[k] else []
    decreases if |rows| < h then h - |rows| else 0
  {
    if |rows| < h then WithRow(rows + [[]], h, row) else rows[h - 1 := row]
  }

  /** The sheet and its snapshot once the header has been settled. */
  datatype Prepared = Prepared(snapshot: Snapshot, cells: Cells)

  ghost function Settled(g: Google, extras: Extras, before: Prepared, data: seq<ItemData>): (after: Prepared)
    requires before.snapshot.headerRow >= 1
  {
    var s := before.snapshot;
    if !Grows(extras, s.header, data) then before else
    var names := GrownHeader(extras, s.header, data);
    Prepared(s.(rows := WithRow(s.rows, s.headerRow, NameCells(names)), header := names),
      PutRows(g, "RAW", before.cells, s.headerRow, [NameCells(names)]))
  }

  ghost function Begin(g: Google, title: string, settings: Settings, cells: Cells): Prepared {
    var rows := Answer(g, cells, WholeTab(title));
    var headerRow := AtLeastOne(settings.headerRow);
    Prepared(Snapshot(rows, HeaderOf(g, rows, headerRow), headerRow, AtLeastOne(settings.firstDataRow)), cells)
  }

  function MatcherFor(g: Google, read: WholeNumber, s: Snapshot, match_: string): Result<Matcher, Refusal>
    requires s.firstDataRow >= 1
  {
    if match_ == ROW_NUMBER then Ok(ByRowNumber(read))
    else if match_ !in s.header then Err(NoMatchColumn)
    else Ok(ByColumn(match_, KeyTexts(g, s.rows, IndexOf(s.header, match_).value, s.firstDataRow - 1), s.firstDataRow))
  }

  datatype UpdateCall = UpdateCall(title: string, settings: Settings, inputs: seq<Input>, matchColumn: Option<string>,
    upsert: bool, read: WholeNumber)

  /**
   Everything an update settles before it writes a row: the data, the sheet
   with its header, the matcher, the plan.
   */
  datatype Decision = Decision(data: seq<ItemData>, prepared: Prepared, matcher: Matcher, plan: Plan)

  ghost function Decide(g: Google, call: UpdateCall, cells: Cells): Result<Decision, Refusal> {
    var start := Begin(g, call.title, call.settings, cells);
    var forced := call.upsert && start.snapshot.rows == [];
    if call.matchColumn.None? then Err(NoMatchColumn)
    else if !forced && start.snapshot.header == [] then Err(NoColumns)
    else
      var data := DataOf(call.inputs, forced, |call.inputs|);
      if data.Err? then Err(data.error) else
      var refusal := ColumnRefusal(call.settings.extras, start.snapshot.header, data.value);
      if refusal.Some? then Err(refusal.value) else
      var prepared := Settled(g, call.settings.extras, start, data.value);
      var matcher := MatcherFor(g, call.read, prepared.snapshot, call.matchColumn.value);
      if matcher.Err? then Err(matcher.error) else
      var plan := PlanFor(g, matcher.value, prepared.snapshot.header, call.upsert, data.value, |data.value|);
      if plan.Err? then Err(plan.error) else Ok(Decision(data.value, prepared, matcher.value, plan.value))
  }

  /** The sheet after an update that went through. */
  ghost function Updated(g: Google, call: UpdateCall, cells: Cells): Result<Cells, Refusal> {
    var d := Decide(g, call, cells);
    if d.Err? then Err(d.error)
    else Ok(Carried(g, call.settings.mode, d.value.prepared.cells, d.value.prepared.snapshot, d.value.plan))
  }

  /** What the node emits: the input as it came for automatic mapping, the values sent otherwise. */
  function Emitted(call: UpdateCall, data: seq<ItemData>, plan: Plan): seq<map<string, Value>> {
    if data != [] && data[0].auto then Jsons(call.inputs)
    else if !call.upsert && plan.writes == [] then []
    else SentBy(data)
  }

  function Jsons(inputs: seq<Input>): (items: seq<map<string, Value>>)
    ensures |items| == |inputs| && forall k :: 0 <= k < |inputs| ==> items[k] == inputs[k].json
  {
    if inputs == [] then [] else [inputs[0].json] + Jsons(inputs[1..])
  }

  function SentBy(data: seq<ItemData>): (items: seq<map<string, Value>>)
    ensures |items| == |data| && forall k :: 0 <= k < |data| ==> items[k] == data[k].values
  {
    if data == [] then [] else [data[0].values] + SentBy(data[1..])
  }

  /**
   The sheet after its columns were settled or refused: a refusal of unknown
   columns comes after the header has grown.
   */
  ghost function AfterColumns(g: Google, extras: Extras, start: Prepared, data: seq<ItemData>): Cells
    requires start.snapshot.headerRow >= 1
  {
    var refusal := ColumnRefusal(extras, start.snapshot.header, data);
    if refusal == Some(ExtraFields) || refusal == Some(NoColumns) then start.cells
    else Settled(g, extras, start, data).cells
  }

  /** The sheet a refused update leaves behind. */
  ghost function LeftBehind(g: Google, call: UpdateCall, cells: Cells): Cells {
    var start := Begin(g, call.title, call.settings, cells);
    var forced := call.upsert && start.snapshot.rows == [];
    if call.matchColumn.None? || (!forced && start.snapshot.header == []) then cells else
    var data := DataOf(call.inputs, forced, |call.inputs|);
    if data.Err? then cells else AfterColumns(g, call.settings.extras, start, data.value)
  }

  /** The sheet a refused append leaves behind. */
  ghost function LeftByAppend(g: Google, title: string, settings: Settings, inputs: seq<Input>, cells: Cells): Cells {
    var start := Begin(g, title, settings, cells);
    var data := DataOf(inputs, start.snapshot.rows == [], |inputs|);
    if data.Err? then cells else AfterColumns(g, settings.extras, start, data.value)
  }

  /**
   What an append emits: the items as they came when the first is mapped
   automatically, and otherwise what was sent for each.
   */
  ghost function AppendEmits(g: Google, title: string, settings: Settings, inputs: seq<Input>,
                             cells: Cells): seq<map<string, Value>> {
    var data := DataOf(inputs, Begin(g, title, settings, cells).snapshot.rows == [], |inputs|);
    if data.Err? then [] else if data.value != [] && data.value[0].auto then Jsons(inputs) else SentBy(data.value)
  }

  /** The sheet after an append that went through. */
  ghost function Appended(g: Google, title: string, settings: Settings, inputs: seq<Input>,
                          cells: Cells): Result<Cells, Refusal> {
    var start := Begin(g, title, settings, cells);
    var data := DataOf(inputs, start.snapshot.rows == [], |inputs|);
    if data.Err? then Err(data.error) else
    var refusal := ColumnRefusal(settings.extras, start.snapshot.header, data.value);
    if refusal.Some? then Err(refusal.value) else
    var after := Settled(g, settings.extras, start, data.value);
    Ok(PutRows(g, settings.mode, after.cells, |after.snapshot.rows| + 1, RowsFor(after.snapshot.header, data.value)))
  }

  // ----- Facts about the pieces -------------------------------------------

  lemma PutRowsUsed(g: Google, mode: string, cells: Cells, r: nat, rows: seq<Row>, n: nat)
    requires UsedWithin(cells, n) && r >= 1
    ensures UsedWithin(PutRows(g, mode, cells, r, rows), if rows != [] && r + |rows| - 1 > n then r + |rows| - 1 else n)
  {
    var after := PutRows(g, mode, cells, r, rows);
    forall k | k in after ensures k.0 <= if rows != [] && r + |rows| - 1 > n then r + |rows| - 1 else n {
      PutRowsAt(g, mode, cells, r, rows, k.0, k.1);
      assert Look(after, k.0, k.1).Some?;
    }
  }

  /** Settling the header keeps the snapshot sound: every used row read, and a header only where a row is. */
  lemma SettledIsSound(g: Google, extras: Extras, before: Prepared, data: seq<ItemData>)
    requires ValidSnapshot(before.snapshot) && UsedWithin(before.cells, |before.snapshot.rows|)
    ensures var after := Settled(g, extras, before, data);
      ValidSnapshot(after.snapshot) && UsedWithin(after.cells, |after.snapshot.rows|)
  {
    var s := before.snapshot;
    if Grows(extras, s.header, data) {
      var names := GrownHeader(extras, s.header, data);
      PutRowsUsed(g, "RAW", before.cells, s.headerRow, [NameCells(names)], |s.rows|);
    }
  }

  /** Settling the header changes the header row and nothing else. */
  lemma SettledChangesHeaderRow(g: Google, extras: Extras, before: Prepared, data: seq<ItemData>, r: nat, c: nat)
    requires before.snapshot.headerRow >= 1
    ensures var after := Settled(g, extras, before, data);
      && after.snapshot.header == GrownHeader(extras, before.snapshot.header, data)
      && Look(after.cells, r, c) ==
        if Grows(extras, before.snapshot.header, data) && r == before.snapshot.headerRow && c < |after.snapshot.header|
        then Written(g, "RAW", Look(before.cells, r, c), Text(after.snapshot.header[c]))
        else Look(before.cells, r, c)
  {
    hide Written, Grows;
    var s := before.snapshot;
    var names := GrownHeader(extras, s.header, data);
    PutRowsAt(g, "RAW", before.cells, s.headerRow, [NameCells(names)], r, c);
  }

  /** A cell once the header is settled: the new name in a grown header row, and otherwise what it held. */
  ghost function SettledCell(g: Google, extras: Extras, start: Prepared, data: seq<ItemData>, r: nat,
                             c: nat): Option<Value> {
    var header := GrownHeader(extras, start.snapshot.header, data);
    if Grows(extras, start.snapshot.header, data) && r == start.snapshot.headerRow && c < |header|
    then Written(g, "RAW", Look(start.cells, r, c), Text(header[c]))
    else Look(start.cells, r, c)
  }

  /**
   An update that goes through: the unmatched items of an upsert stand once
   each, in order, below every used row; each other cell holds the last value
   sent for it by an item matched to its row, or what it held once the header
   was settled. Matched by column, no sent value is covered by an appended item.
   */
  lemma UpdateMeans(g: Google, call: UpdateCall, cells: Cells, r: nat, c: nat)
    requires ReadsAllRows(g, call.title) && r >= 1 && Updated(g, call, cells).Ok?
    ensures var start := Begin(g, call.title, call.settings, cells);
            var d := Decide(g, call, cells).value;
            var header := GrownHeader(call.settings.extras, start.snapshot.header, d.data);
            var items := if call.upsert then Unmatched(g, d.matcher, d.data, |d.data|) else [];
            var sent := LastSent(g, d.matcher, header, d.data, |d.data|, r, c);
            var first := FirstFree(d.prepared.snapshot);
      && UsedWithin(cells, first - 1)
      && (call.matchColumn != Some(ROW_NUMBER) && sent.Some? ==> r < first)
      && Look(Updated(g, call, cells).value, r, c) ==
        if first <= r < first + |items| && c < |header| then
          Entered(g, call.settings.mode, Given(items[r - first].values, header[c]))
        else if sent.Some? then Entered(g, call.settings.mode, sent.value)
        else SettledCell(g, call.settings.extras, start, d.data, r, c)
  {
    hide Written, Entered, Given, LastSent, PlanFor, RowOf, Settled, Carried, KeyTexts, DataOf, ColumnRefusal, LastRow,
         UsedWithin, Grows, GrownHeader;
    var start := Begin(g, call.title, call.settings, cells);
    var d := Decide(g, call, cells).value;
    StartIsSound(g, call.title, call.settings, cells);
    SettledIsSound(g, call.settings.extras, start, d.data);
    SettledChangesHeaderRow(g, call.settings.extras, start, d.data, r, c);
    SettledKeepsRows(g, call.settings.extras, start, d.data);
    FirstFreeIsNext(d.prepared.snapshot);
    UsedGrows(cells, |start.snapshot.rows|, |d.prepared.snapshot.rows|);
    UpdateCells(g, call.settings.mode, d.prepared.cells, d.prepared.snapshot, d.matcher, call.upsert, d.data, r, c);
    if call.matchColumn != Some(ROW_NUMBER) {
      UpdateByColumn(g, call.settings.mode, d.prepared.cells, d.prepared.snapshot, d.matcher, call.upsert, d.data, r,
        c);
    }
  }

  /**
   What an update leaves alone above the appended rows, end to end, header
   growth aside: the match column, row_number and the columns without a
   heading, and matched by column also the rows above the data.
   */
  lemma UpdateLeaves(g: Google, call: UpdateCall, cells: Cells, r: nat, c: nat)
    requires ReadsAllRows(g, call.title) && r >= 1 && Updated(g, call, cells).Ok?
    requires r < FirstFree(Decide(g, call, cells).value.prepared.snapshot)
    requires var header := Decide(g, call, cells).value.prepared.snapshot.header;
      || (call.matchColumn != Some(ROW_NUMBER) && r < AtLeastOne(call.settings.firstDataRow))
      || c >= |header| || header[c] == call.matchColumn.value || header[c] == ROW_NUMBER
    ensures Look(Updated(g, call, cells).value, r, c) ==
      SettledCell(g, call.settings.extras, Begin(g, call.title, call.settings, cells),
        Decide(g, call, cells).value.data, r, c)
  {
    hide Written, Entered, Given, LastSent, PlanFor, RowOf, Settled, Carried, KeyTexts, DataOf, ColumnRefusal, LastRow,
         UsedWithin, Grows, GrownHeader;
    var start := Begin(g, call.title, call.settings, cells);
    var d := Decide(g, call, cells).value;
    StartIsSound(g, call.title, call.settings, cells);
    SettledIsSound(g, call.settings.extras, start, d.data);
    SettledChangesHeaderRow(g, call.settings.extras, start, d.data, r, c);
    SettledKeepsRows(g, call.settings.extras, start, d.data);
    UpdateLeavesAlone(g, call.settings.mode, d.prepared.cells, d.prepared.snapshot, d.matcher, call.upsert, d.data, r,
      c);
  }

  /** An append puts the items below every used row, in order, and touches no other cell but those of a grown header. */
  lemma AppendMeans(g: Google, title: string, settings: Settings, inputs: seq<Input>, cells: Cells, r: nat, c: nat)
    requires ReadsAllRows(g, title) && r >= 1
    requires Appended(g, title, settings, inputs, cells).Ok?
    ensures var start := Begin(g, title, settings, cells);
            var data := DataOf(inputs, start.snapshot.rows == [], |inputs|).value;
            var header := GrownHeader(settings.extras, start.snapshot.header, data);
            var last := |Settled(g, settings.extras, start, data).snapshot.rows|;
      && UsedWithin(cells, last)
      && Look(Appended(g, title, settings, inputs, cells).value, r, c) ==
        if last < r <= last + |inputs| && c < |header| then
          Entered(g, settings.mode, Given(data[r - last - 1].values, header[c]))
        else SettledCell(g, settings.extras, start, data, r, c)
  {
    hide Written, FieldFor, Entered, Given, Settled, DataOf, ColumnRefusal, UsedWithin, Grows, GrownHeader, PutRows,
         RowFor;
    var start := Begin(g, title, settings, cells);
    var data := DataOf(inputs, start.snapshot.rows == [], |inputs|).value;
    var after := Settled(g, settings.extras, start, data);
    StartIsSound(g, title, settings, cells);
    SettledIsSound(g, settings.extras, start, data);
    SettledChangesHeaderRow(g, settings.extras, start, data, r, c);
    SettledKeepsRows(g, settings.extras, start, data);
    UsedGrows(cells, |start.snapshot.rows|, |after.snapshot.rows|);
    PutRowsAt(g, settings.mode, after.cells, |after.snapshot.rows| + 1, RowsFor(after.snapshot.header, data), r, c);
    BelowIsEmpty(after.cells, |after.snapshot.rows|, r, c);
    if |after.snapshot.rows| < r <= |after.snapshot.rows| + |inputs| && c < |after.snapshot.header| {
      FieldEnters(g, settings.mode, None, after.snapshot.header[c], data[r - |after.snapshot.rows| - 1].values);
    }
  }

  // ----- The items' own values --------------------------------------------

  /** What an item itself gives for a column: its field, or the value mapped to it, where null clears the cell. */
  function Gives(input: Input, forced: bool, name: string): Option<Value> {
    if name == "row_number" then None
    else if forced || input.mapping.Automatic? then
      if name in input.json && input.json[name] != Null then Some(input.json[name]) else None
    else if name in input.mapping.values then Some(input.mapping.values[name]) else None
  }

  /** The data of each item is its own: every field when mapped automatically, else what is mapped, "" for null. */
  lemma {:induction false} DataIs(inputs: seq<Input>, forced: bool, n: nat, i: nat)
    requires i < n <= |inputs| && DataOf(inputs, forced, n).Ok?
    ensures var item := DataOf(inputs, forced, n).value[i];
      if forced || inputs[i].mapping.Automatic? then item == ItemData(inputs[i].json, true)
      else
        && !item.auto && item.values.Keys == inputs[i].mapping.values.Keys && item.values != map[]
        && forall key <- item.values :: item.values[key] ==
             if inputs[i].mapping.values[key] == Null then Text("") else inputs[i].mapping.values[key]
    decreases n
  {
    if i < n - 1 {
      DataIs(inputs, forced, n - 1, i);
    }
  }

  /** An item mapped by hand to nothing: there is no value to write. */
  predicate MapsNothing(input: Input, forced: bool) {
    !forced && input.mapping.Manual? && input.mapping.values == map[]
  }

  /** The data is refused exactly when some item maps nothing, and the first one is named. */
  lemma {:induction false} NothingMappedIff(inputs: seq<Input>, forced: bool, n: nat)
    requires n <= |inputs|
    ensures DataOf(inputs, forced, n).Err? <==> exists i :: 0 <= i < n && MapsNothing(inputs[i], forced)
    ensures DataOf(inputs, forced, n).Err? ==>
      var i := DataOf(inputs, forced, n).error.item;
      i < n && MapsNothing(inputs[i], forced) && forall k :: 0 <= k < i ==> !MapsNothing(inputs[k], forced)
    decreases n
  {
    if n > 0 {
      NothingMappedIff(inputs, forced, n - 1);
    }
  }

  lemma GivesIs(g: Google, mode: string, inputs: seq<Input>, forced: bool, i: nat, name: string)
    requires i < |inputs| && DataOf(inputs, forced, |inputs|).Ok?
    ensures var given := Given(DataOf(inputs, forced, |inputs|).value[i].values, name);
            var own := Gives(inputs[i], forced, name);
      && (given != Null <==> own.Some?)
      && Entered(g, mode, given) == if own.Some? then Entered(g, mode, own.value) else None
  {
    hide DataOf;
    DataIs(inputs, forced, |inputs|, i);
  }

  /** An appended row holds, under each heading, what the item's own value enters, and nothing where it gives none. */
  lemma AppendEnters(g: Google, title: string, settings: Settings, inputs: seq<Input>, cells: Cells, i: nat, c: nat)
    requires ReadsAllRows(g, title) && i < |inputs| && Appended(g, title, settings, inputs, cells).Ok?
    ensures var start := Begin(g, title, settings, cells);
            var forced := start.snapshot.rows == [];
            var data := DataOf(inputs, forced, |inputs|).value;
            var header := GrownHeader(settings.extras, start.snapshot.header, data);
            var r := |Settled(g, settings.extras, start, data).snapshot.rows| + 1 + i;
      c < |header| ==>
        var own := Gives(inputs[i], forced, header[c]);
        Look(Appended(g, title, settings, inputs, cells).value, r, c) ==
          if own.Some? then Entered(g, settings.mode, own.value) else None
  {
    hide Entered, Given, Gives, Settled, DataOf, ColumnRefusal, UsedWithin, GrownHeader, Appended, ReadsAllRows;
    var start := Begin(g, title, settings, cells);
    var forced := start.snapshot.rows == [];
    assert DataOf(inputs, forced, |inputs|).Ok? by {
      AppendedHasData(g, title, settings, inputs, cells);
    }
    var data := DataOf(inputs, forced, |inputs|).value;
    var header := GrownHeader(settings.extras, start.snapshot.header, data);
    AppendMeans(g, title, settings, inputs, cells, |Settled(g, settings.extras, start, data).snapshot.rows| + 1 + i, c);
    if c < |header| {
      GivesIs(g, settings.mode, inputs, forced, i, header[c]);
    }
  }

  lemma AppendedHasData(g: Google, title: string, settings: Settings, inputs: seq<Input>, cells: Cells)
    requires Appended(g, title, settings, inputs, cells).Ok?
    ensures DataOf(inputs, Begin(g, title, settings, cells).snapshot.rows == [], |inputs|).Ok?
  {
  }

  /** Item k is matched to row r and gives something for a column. */
  predicate Hits(g: Google, m: Matcher, inputs: seq<Input>, forced: bool, data: seq<ItemData>, r: nat, name: string,
                 k: nat)
    requires k < |inputs| == |data|
  {
    RowOf(g, m, data[k], k) == Ok(r) && Gives(inputs[k], forced, name).Some?
  }

  /** Item i is the last of the first n that does. */
  predicate LastToGive(g: Google, m: Matcher, inputs: seq<Input>, forced: bool, data: seq<ItemData>, n: nat,
                       r: nat, name: string, i: nat)
    requires n <= |inputs| == |data|
  {
    && i < n && Hits(g, m, inputs, forced, data, r, name, i)
    && forall k :: i < k < n ==> !Hits(g, m, inputs, forced, data, r, name, k)
  }

  lemma LastSentStep(g: Google, mode: string, m: Matcher, header: seq<string>, inputs: seq<Input>, forced: bool, n: nat,
                     r: nat, c: nat)
    requires 1 <= n <= |inputs| && DataOf(inputs, forced, |inputs|).Ok? && c < |header| && header[c] != MatchName(m)
    ensures var data := DataOf(inputs, forced, |inputs|).value;
            var sent := LastSent(g, m, header, data, n, r, c);
      if Hits(g, m, inputs, forced, data, r, header[c], n - 1) then
        sent.Some? && Entered(g, mode, sent.value) == Entered(g, mode, Gives(inputs[n - 1], forced, header[c]).value)
      else sent == LastSent(g, m, header, data, n - 1, r, c)
  {
    hide RowOf, Gives, Given, Entered, DataOf, MatchName;
    GivesIs(g, mode, inputs, forced, n - 1, header[c]);
  }

  lemma {:induction false} LastSentIs(g: Google, mode: string, m: Matcher, header: seq<string>, inputs: seq<Input>,
                                      forced: bool, n: nat, r: nat, c: nat, i: nat)
    requires n <= |inputs| && DataOf(inputs, forced, |inputs|).Ok? && c < |header| && header[c] != MatchName(m)
    requires LastToGive(g, m, inputs, forced, DataOf(inputs, forced, |inputs|).value, n, r, header[c], i)
    ensures var sent := LastSent(g, m, header, DataOf(inputs, forced, |inputs|).value, n, r, c);
      sent.Some? && Entered(g, mode, sent.value) == Entered(g, mode, Gives(inputs[i], forced, header[c]).value)
    decreases n
  {
    hide Hits, Gives, Entered, DataOf, MatchName, LastSent;
    LastSentStep(g, mode, m, header, inputs, forced, n, r, c);
    if i < n - 1 {
      LastSentIs(g, mode, m, header, inputs, forced, n - 1, r, c, i);
    }
  }

  lemma {:induction false} NothingSent(g: Google, mode: string, m: Matcher, header: seq<string>, inputs: seq<Input>,
                                       forced: bool, n: nat, r: nat, c: nat)
    requires n <= |inputs| && DataOf(inputs, forced, |inputs|).Ok? && c < |header| && header[c] != MatchName(m)
    requires var data := DataOf(inputs, forced, |inputs|).value;
      forall k :: 0 <= k < n ==> !Hits(g, m, inputs, forced, data, r, header[c], k)
    ensures LastSent(g, m, header, DataOf(inputs, forced, |inputs|).value, n, r, c) == None
    decreases n
  {
    hide Hits, DataOf, MatchName, Entered, Gives;
    if n > 0 {
      LastSentStep(g, mode, m, header, inputs, forced, n, r, c);
      NothingSent(g, mode, m, header, inputs, forced, n - 1, r, c);
    }
  }

  /**
   An update enters, in a row that was read, the own value of the last item
   matched to the row that gives one for the column, and leaves a cell that
   none gives one for. A null mapped by hand clears the cell; a null field
   leaves it to the items before.
   */
  lemma UpdateEnters(g: Google, call: UpdateCall, cells: Cells, r: nat, c: nat)
    requires ReadsAllRows(g, call.title) && r >= 1 && Updated(g, call, cells).Ok?
    requires r < FirstFree(Decide(g, call, cells).value.prepared.snapshot)
    requires var header := Decide(g, call, cells).value.prepared.snapshot.header;
      c < |header| && header[c] != call.matchColumn.value
    ensures var start := Begin(g, call.title, call.settings, cells);
            var d := Decide(g, call, cells).value;
            var forced := call.upsert && start.snapshot.rows == [];
            var name := d.prepared.snapshot.header[c];
            var after := Look(Updated(g, call, cells).value, r, c);
      && d.data == DataOf(call.inputs, forced, |call.inputs|).value && |d.data| == |call.inputs|
      && (forall i: nat :: LastToGive(g, d.matcher, call.inputs, forced, d.data, |call.inputs|, r, name, i) ==>
        after == Entered(g, call.settings.mode, Gives(call.inputs[i], forced, name).value))
      && ((forall k :: 0 <= k < |call.inputs| ==> !Hits(g, d.matcher, call.inputs, forced, d.data, r, name, k)) ==>
        after == SettledCell(g, call.settings.extras, start, d.data, r, c))
  {
    hide Entered, Gives, Settled, SettledCell, DataOf, UsedWithin, GrownHeader, Updated, ReadsAllRows, RowOf, LastSent,
         PlanFor, Decide, FirstFree, MatcherFor;
    var start := Begin(g, call.title, call.settings, cells);
    var forced := call.upsert && start.snapshot.rows == [];
    DecidedData(g, call, cells);
    var d := Decide(g, call, cells).value;
    var header := d.prepared.snapshot.header;
    UpdateMeans(g, call, cells, r, c);
    forall i: nat | LastToGive(g, d.matcher, call.inputs, forced, d.data, |call.inputs|, r, header[c], i)
      ensures Look(Updated(g, call, cells).value, r, c) ==
        Entered(g, call.settings.mode, Gives(call.inputs[i], forced, header[c]).value)
    {
      LastSentIs(g, call.settings.mode, d.matcher, header, call.inputs, forced, |call.inputs|, r, c, i);
    }
    if forall k :: 0 <= k < |call.inputs| ==> !Hits(g, d.matcher, call.inputs, forced, d.data, r, header[c], k) {
      NothingSent(g, call.settings.mode, d.matcher, header, call.inputs, forced, |call.inputs|, r, c);
    }
  }

  /** Item k as it comes out when the columns are mapped by hand: the values sent, empty text for null. */
  predicate SentOut(input: Input, item: map<string, Value>) {
    if input.mapping.Automatic? then item == input.json
    else
      && item.Keys == input.mapping.values.Keys
      && forall key <- item :: item[key] ==
           if input.mapping.values[key] == Null then Text("") else input.mapping.values[key]
  }

  /** Item k is matched to a row and gives something for one of the columns. */
  ghost predicate GivesSomething(g: Google, m: Matcher, header: seq<string>, inputs: seq<Input>, forced: bool,
                                 data: seq<ItemData>, k: nat)
    requires k < |inputs| == |data|
  {
    exists r: nat, c: nat ::
      r != 0 && c < |header| && header[c] != MatchName(m) && Hits(g, m, inputs, forced, data, r, header[c], k)
  }

  lemma SomethingIsGiven(g: Google, m: Matcher, header: seq<string>, inputs: seq<Input>, forced: bool, k: nat)
    requires k < |inputs| && DataOf(inputs, forced, |inputs|).Ok?
    ensures var data := DataOf(inputs, forced, |inputs|).value;
      SendsSomething(g, m, header, data, k) <==> GivesSomething(g, m, header, inputs, forced, data, k)
  {
    hide DataOf, Given, Gives, MatchName, RowOf, Entered;
    var data := DataOf(inputs, forced, |inputs|).value;
    forall c | 0 <= c < |header|
      ensures Given(data[k].values, header[c]) != Null <==> Gives(inputs[k], forced, header[c]).Some?
    {
      GivesIs(g, "RAW", inputs, forced, k, header[c]);
    }
    if SendsSomething(g, m, header, data, k) {
      var c :| 0 <= c < |header| && header[c] != MatchName(m) && Given(data[k].values, header[c]) != Null;
      assert Hits(g, m, inputs, forced, data, RowOf(g, m, data[k], k).value, header[c], k);
    }
  }

  /**
   What an update emits: the items as they came when the first is mapped
   automatically; nothing when it does not append and no item gives anything
   for a row; and otherwise what was sent.
   */
  lemma UpdateEmits(g: Google, call: UpdateCall, cells: Cells)
    requires call.inputs != [] && Updated(g, call, cells).Ok?
    ensures var d := Decide(g, call, cells).value;
            var forced := call.upsert && Begin(g, call.title, call.settings, cells).snapshot.rows == [];
            var out, header := Emitted(call, d.data, d.plan), d.prepared.snapshot.header;
      && |d.data| == |call.inputs|
      && if forced || call.inputs[0].mapping.Automatic? then
           |out| == |call.inputs| && forall k :: 0 <= k < |out| ==> out[k] == call.inputs[k].json
         else if !call.upsert && forall k :: 0 <= k < |call.inputs| ==>
             !GivesSomething(g, d.matcher, header, call.inputs, forced, d.data, k) then out == []
         else |out| == |call.inputs| && forall k :: 0 <= k < |out| ==> SentOut(call.inputs[k], out[k])
  {
    hide DataOf, Updated, MatcherFor, Settled, GivesSomething, SendsSomething, Begin, SentOut, ColumnRefusal, PlanFor;
    var forced := call.upsert && Begin(g, call.title, call.settings, cells).snapshot.rows == [];
    DecidedData(g, call, cells);
    var d := Decide(g, call, cells).value;
    var header := d.prepared.snapshot.header;
    NothingWrittenIff(g, d.matcher, header, call.upsert, d.data, |d.data|);
    forall k | 0 <= k < |call.inputs|
      ensures SendsSomething(g, d.matcher, header, d.data, k) <==>
        GivesSomething(g, d.matcher, header, call.inputs, forced, d.data, k)
      ensures !forced ==> SentOut(call.inputs[k], d.data[k].values)
    {
      SomethingIsGiven(g, d.matcher, header, call.inputs, forced, k);
      DataGoesOut(call.inputs, forced, k);
    }
    DataIs(call.inputs, forced, |call.inputs|, 0);
  }

  lemma DataGoesOut(inputs: seq<Input>, forced: bool, k: nat)
    requires k < |inputs| && DataOf(inputs, forced, |inputs|).Ok?
    ensures !forced ==> SentOut(inputs[k], DataOf(inputs, forced, |inputs|).value[k].values)
  {
    hide DataOf;
    DataIs(inputs, forced, |inputs|, k);
  }

  /** What an append emits: the items as they came when the first is mapped automatically, and else what was sent. */
  lemma AppendedComeOut(g: Google, title: string, settings: Settings, inputs: seq<Input>, cells: Cells)
    requires inputs != [] && Appended(g, title, settings, inputs, cells).Ok?
    ensures var out := AppendEmits(g, title, settings, inputs, cells);
      && |out| == |inputs|
      && if Begin(g, title, settings, cells).snapshot.rows == [] || inputs[0].mapping.Automatic? then
           forall k :: 0 <= k < |out| ==> out[k] == inputs[k].json
         else forall k :: 0 <= k < |out| ==> SentOut(inputs[k], out[k])
  {
    hide DataOf, Appended, Begin, SentOut;
    var forced := Begin(g, title, settings, cells).snapshot.rows == [];
    AppendedHasData(g, title, settings, inputs, cells);
    forall k | 0 <= k < |inputs|
      ensures !forced ==> SentOut(inputs[k], DataOf(inputs, forced, |inputs|).value[k].values)
    {
      DataGoesOut(inputs, forced, k);
    }
    DataIs(inputs, forced, |inputs|, 0);
  }

  lemma DecidedData(g: Google, call: UpdateCall, cells: Cells)
    requires Updated(g, call, cells).Ok?
    ensures Decide(g, call, cells).Ok?
    ensures var forced := call.upsert && Begin(g, call.title, call.settings, cells).snapshot.rows == [];
            var data := DataOf(call.inputs, forced, |call.inputs|);
      && data.Ok? && Decide(g, call, cells).value.data == data.value
      && call.matchColumn == Some(MatchName(Decide(g, call, cells).value.matcher))
      && Decide(g, call, cells).value.prepared.snapshot.header ==
        GrownHeader(call.settings.extras, Begin(g, call.title, call.settings, cells).snapshot.header, data.value)
  {
    hide PlanFor, ColumnRefusal, DataOf, Carried, KeyTexts, WithRow, PutRows, HeaderOf, Grows;
  }

  // ----- What becomes of the columns --------------------------------------

  /** An automatic item brings a column the header does not have. */
  ghost predicate Brings(header: seq<string>, data: seq<ItemData>, name: string) {
    name != "row_number" && name !in header
    && exists k :: 0 <= k < |data| && data[k].auto && name in data[k].values
  }

  /** New columns are inserted only when asked for: those that are brought, in dictionary order after the others. */
  lemma InsertedColumns(extras: Extras, header: seq<string>, data: seq<ItemData>)
    ensures var grown := GrownHeader(extras, header, data);
      && header <= grown && Order.Ascending(grown[|header|..])
      && forall name :: name in grown[|header|..] <==> extras == InsertColumn && Brings(header, data, name)
  {
    var extra := ExtraColumns(header, data);
    forall name ensures name in extra <==> Brings(header, data, name) {
      ExtraIffBrought(header, data, name);
    }
    var grown := GrownHeader(extras, header, data);
    if Grows(extras, header, data) {
      assert grown[|header|..] == extra;
    } else {
      assert grown[|header|..] == [];
      if extras == InsertColumn {
        forall name ensures !Brings(header, data, name) {
          if Brings(header, data, name) {
            assert AnyAuto(data) && name in extra;
            assert false;
          }
        }
      }
    }
  }

  lemma ExtraIffBrought(header: seq<string>, data: seq<ItemData>, name: string)
    ensures name in ExtraColumns(header, data) <==> Brings(header, data, name)
  {
    assert name in ExtraColumns(header, data) <==> name in ExtraKeys(header, data);
    if Brings(header, data, name) {
      var k :| 0 <= k < |data| && data[k].auto && name in data[k].values;
    }
  }

  /**
   Columns are refused for three reasons: something extra is brought and is to
   be refused, there is no column at all, or an item maps a column there is not.
   */
  lemma ColumnsRefusedIff(extras: Extras, header: seq<string>, data: seq<ItemData>)
    ensures var grown := GrownHeader(extras, header, data);
            var refused := extras == RefuseField && exists name :: Brings(header, data, name);
            var unknown := exists k, name ::
              0 <= k < |data| && !data[k].auto && name in data[k].values && name != "row_number" && name !in grown;
      ColumnRefusal(extras, header, data) ==
        if refused then Some(ExtraFields) else if grown == [] then Some(NoColumns)
        else if unknown then Some(UnknownColumn) else None
  {
    hide GrownHeader, ExtraColumns;
    var extra := ExtraColumns(header, data);
    forall name ensures name in extra <==> Brings(header, data, name) {
      ExtraIffBrought(header, data, name);
    }
    if exists name :: Brings(header, data, name) {
      var name :| Brings(header, data, name);
      assert name in extra && AnyAuto(data);
    }
    if extra != [] {
      assert extra[0] in extra && Brings(header, data, extra[0]);
      assert AnyAuto(data);
    }
    var grown := GrownHeader(extras, header, data);
    KnowsIff(grown, data);
  }

  lemma KnowsIff(header: seq<string>, data: seq<ItemData>)
    ensures !KnowsColumns(header, data) <==>
      exists k, name ::
        0 <= k < |data| && !data[k].auto && name in data[k].values && name != "row_number" && name !in header
  {
    if !KnowsColumns(header, data) {
      var k :| 0 <= k < |data| && !data[k].auto && !KnowsKeys(header, data[k].values);
      var name :| name in data[k].values && !(name == ROW_NUMBER || name in header);
    }
  }

  // ----- What a refusal leaves behind -------------------------------------

  /** Whether the columns were let through as far as writing a grown header. */
  ghost predicate WritesHeader(extras: Extras, header: seq<string>, data: seq<ItemData>) {
    Grows(extras, header, data) && GrownHeader(extras, header, data) != []
  }

  /** Whether an update gets as far as writing a grown header. */
  ghost predicate UpdateGrows(g: Google, call: UpdateCall, cells: Cells) {
    var s := Begin(g, call.title, call.settings, cells).snapshot;
    var forced := call.upsert && s.rows == [];
    var data := DataOf(call.inputs, forced, |call.inputs|);
    && call.matchColumn.Some? && (forced || s.header != [])
    && data.Ok? && WritesHeader(call.settings.extras, s.header, data.value)
  }

  /** Whether an append does. */
  ghost predicate AppendGrows(g: Google, title: string, settings: Settings, inputs: seq<Input>, cells: Cells) {
    var s := Begin(g, title, settings, cells).snapshot;
    var data := DataOf(inputs, s.rows == [], |inputs|);
    data.Ok? && WritesHeader(settings.extras, s.header, data.value)
  }

  /** Every name already stands in its cell as writing it would leave it. */
  ghost predicate Stands(g: Google, cells: Cells, r: nat, names: seq<string>) {
    forall c: nat :: c < |names| ==> Look(cells, r, c) == Written(g, "RAW", Look(cells, r, c), Text(names[c]))
  }

  lemma SameCells(a: Cells, b: Cells)
    requires forall r: nat, c: nat :: Look(a, r, c) == Look(b, r, c)
    ensures a == b
  {
    forall k | k in a ensures k in b && a[k] == b[k] {
      assert Look(a, k.0, k.1) == Look(b, k.0, k.1);
    }
    forall k | k in b ensures k in a {
      assert Look(a, k.0, k.1) == Look(b, k.0, k.1);
    }
  }

  /** Writing the names of a row leaves the sheet as it was exactly when they all stand there already. */
  lemma NamesStandIff(g: Google, cells: Cells, r: nat, names: seq<string>)
    ensures PutRows(g, "RAW", cells, r, [NameCells(names)]) == cells <==> Stands(g, cells, r, names)
  {
    hide Written, PutRows;
    var after := PutRows(g, "RAW", cells, r, [NameCells(names)]);
    forall i: nat, j: nat
      ensures Look(after, i, j) ==
        if i == r && j < |names| then Written(g, "RAW", Look(cells, i, j), Text(names[j])) else Look(cells, i, j)
    {
      PutRowsAt(g, "RAW", cells, r, [NameCells(names)], i, j);
    }
    if Stands(g, cells, r, names) {
      SameCells(after, cells);
    }
  }

  /** Columns are refused after the header is written for one reason alone. */
  lemma ColumnsLeave(g: Google, extras: Extras, start: Prepared, data: seq<ItemData>)
    requires start.snapshot.headerRow >= 1
    ensures AfterColumns(g, extras, start, data) ==
      if WritesHeader(extras, start.snapshot.header, data) then
        PutRows(g, "RAW", start.cells, start.snapshot.headerRow,
          [NameCells(GrownHeader(extras, start.snapshot.header, data))])
      else start.cells
    ensures WritesHeader(extras, start.snapshot.header, data) ==>
      ColumnRefusal(extras, start.snapshot.header, data) in {None, Some(UnknownColumn)}
  {
    hide KnowsColumns, PutRows;
  }

  /** A plan fails because an item has nothing to match, or a row number that is none. */
  lemma {:induction false} PlanFailsOnMatching(g: Google, m: Matcher, header: seq<string>, upsert: bool,
                                               data: seq<ItemData>, n: nat)
    requires n <= |data| && PlanFor(g, m, header, upsert, data, n).Err?
    ensures var e := PlanFor(g, m, header, upsert, data, n).error; e.EmptyMatch? || e.NotARow?
    decreases n
  {
    if PlanFor(g, m, header, upsert, data, n - 1).Err? {
      PlanFailsOnMatching(g, m, header, upsert, data, n - 1);
    }
  }

  /**
   A refused update leaves the sheet with the grown header exactly when it got
   as far as writing it, and otherwise as it was. The refusals that come after
   are those of unknown columns and of matching.
   */
  lemma RefusedUpdateLeaves(g: Google, call: UpdateCall, cells: Cells)
    requires Decide(g, call, cells).Err?
    ensures var s := Begin(g, call.title, call.settings, cells).snapshot;
            var data := DataOf(call.inputs, call.upsert && s.rows == [], |call.inputs|);
            var e := Decide(g, call, cells).error;
      && (UpdateGrows(g, call, cells) ==>
           var names := GrownHeader(call.settings.extras, s.header, data.value);
           && LeftBehind(g, call, cells) == PutRows(g, "RAW", cells, s.headerRow, [NameCells(names)])
           && (LeftBehind(g, call, cells) == cells <==> Stands(g, cells, s.headerRow, names))
           && (e.UnknownColumn? || e.NoMatchColumn? || e.EmptyMatch? || e.NotARow?))
      && (!UpdateGrows(g, call, cells) ==> LeftBehind(g, call, cells) == cells)
  {
    hide PutRows, Stands, WritesHeader, AfterColumns, ColumnRefusal, Settled, GrownHeader, DataOf, PlanFor, HeaderOf,
         KeyTexts;
    var start := Begin(g, call.title, call.settings, cells);
    var s := start.snapshot;
    var data := DataOf(call.inputs, call.upsert && s.rows == [], |call.inputs|);
    if call.matchColumn.Some? && ((call.upsert && s.rows == []) || s.header != []) && data.Ok? {
      ColumnsLeave(g, call.settings.extras, start, data.value);
      NamesStandIff(g, cells, s.headerRow, GrownHeader(call.settings.extras, s.header, data.value));
      var prepared := Settled(g, call.settings.extras, start, data.value);
      SettledHeaderRow(g, call.settings.extras, start, data.value);
      var matcher := MatcherFor(g, call.read, prepared.snapshot, call.matchColumn.value);
      if matcher.Ok?
        && PlanFor(g, matcher.value, prepared.snapshot.header, call.upsert, data.value, |data.value|).Err?
      {
        PlanFailsOnMatching(g, matcher.value, prepared.snapshot.header, call.upsert, data.value, |data.value|);
      }
    }
  }

  lemma SettledHeaderRow(g: Google, extras: Extras, before: Prepared, data: seq<ItemData>)
    requires before.snapshot.headerRow >= 1
    ensures Settled(g, extras, before, data).snapshot.firstDataRow == before.snapshot.firstDataRow
  {
  }

  /** The same of a refused append; the one refusal that comes after is that of unknown columns. */
  lemma RefusedAppendLeaves(g: Google, title: string, settings: Settings, inputs: seq<Input>, cells: Cells)
    requires Appended(g, title, settings, inputs, cells).Err?
    ensures var s := Begin(g, title, settings, cells).snapshot;
            var data := DataOf(inputs, s.rows == [], |inputs|);
            var left := LeftByAppend(g, title, settings, inputs, cells);
      && (AppendGrows(g, title, settings, inputs, cells) ==>
           var names := GrownHeader(settings.extras, s.header, data.value);
           && left == PutRows(g, "RAW", cells, s.headerRow, [NameCells(names)])
           && (left == cells <==> Stands(g, cells, s.headerRow, names))
           && Appended(g, title, settings, inputs, cells).error == UnknownColumn)
      && (!AppendGrows(g, title, settings, inputs, cells) ==> left == cells)
  {
    hide PutRows, Stands, WritesHeader, AfterColumns, ColumnRefusal, Settled, GrownHeader, DataOf, HeaderOf, RowsFor;
    var start := Begin(g, title, settings, cells);
    var data := DataOf(inputs, start.snapshot.rows == [], |inputs|);
    if data.Ok? {
      ColumnsLeave(g, settings.extras, start, data.value);
      NamesStandIff(g, cells, start.snapshot.headerRow,
        GrownHeader(settings.extras, start.snapshot.header, data.value));
    }
  }

  /** A sheet with the one heading a, and an item that brings a column b. */
  lemma {:induction false} GrowsByOne(data: seq<ItemData>)
    requires |data| >= 1 && data[0] == ItemData(map["b" := Text("x")], true)
    requires forall k :: 0 < k < |data| ==> !data[k].auto
    ensures ExtraColumns(["a"], data) == ["b"]
    ensures Grows(InsertColumn, ["a"], data) && GrownHeader(InsertColumn, ["a"], data) == ["a", "b"]
  {
    var item := data[0];
    assert item.auto && "b" in item.values && "b" != ROW_NUMBER && "b" !in ["a"] by {
      assert "b"[0] != ROW_NUMBER[0] && "b"[0] != "a"[0];
    }
    forall key | key in ExtraKeys(["a"], data) ensures key == "b" {
    }
    assert "b" in ExtraKeys(["a"], data);
    Order.AscendingUnique(ExtraColumns(["a"], data), ["b"], {"b"});
    assert data[0].auto;
  }

  lemma {:induction false} AutomaticFirst(inputs: seq<Input>, values: map<string, Value>)
    requires |inputs| >= 1 && inputs[0] == Input(values, Automatic)
    ensures DataOf(inputs, false, 1) == Ok([ItemData(values, true)])
  {
    assert DataOf(inputs, false, 0) == Ok([]);
    assert ItemValues(0, inputs[0], false) == Ok(ItemData(values, true));
    assert [] + [ItemData(values, true)] == [ItemData(values, true)];
  }

  lemma {:induction false} ManualSecond(inputs: seq<Input>, values: map<string, Value>, mapped: map<string, Value>)
    requires |inputs| >= 2 && inputs[0] == Input(values, Automatic) && inputs[1].mapping == Manual(mapped)
    requires mapped != map[] && forall key <- mapped :: mapped[key] != Null
    ensures DataOf(inputs, false, 2) == Ok([ItemData(values, true), ItemData(mapped, false)])
  {
    AutomaticFirst(inputs, values);
    assert Cleared(mapped) == mapped;
    assert ItemValues(1, inputs[1], false) == Ok(ItemData(mapped, false));
    assert [ItemData(values, true)] + [ItemData(mapped, false)] == [ItemData(values, true), ItemData(mapped, false)];
  }

  /** The match column of this update is unknown; the sheet has got a new heading by the time that is said. */
  lemma {:induction false} RefusedUpdateGrows(g: Google, title: string, read: WholeNumber)
    requires Answer(g, map[(1, 0) := Text("a")], WholeTab(title)) == [[Text("a")]]
    ensures var cells := map[(1, 0) := Text("a")];
            var inputs := [Input(map["b" := Text("x")], Automatic)];
            var call := UpdateCall(title, Settings("RAW", 1, 2, InsertColumn), inputs, Some("id"), false, read);
      && Decide(g, call, cells) == Err(NoMatchColumn)
      && Look(LeftBehind(g, call, cells), 1, 1) == Some(g.enter("RAW", Text("b")))
      && LeftBehind(g, call, cells) != cells
  {
    hide PlanFor, PutRows, DataOf, ExtraColumns, LeftBehind, KeyTexts, Stands;
    var cells := map[(1, 0) := Text("a")];
    var inputs := [Input(map["b" := Text("x")], Automatic)];
    var call := UpdateCall(title, Settings("RAW", 1, 2, InsertColumn), inputs, Some("id"), false, read);
    var data := [ItemData(map["b" := Text("x")], true)];
    assert Begin(g, title, call.settings, cells).snapshot == Snapshot([[Text("a")]], ["a"], 1, 2);
    AutomaticFirst(inputs, map["b" := Text("x")]);
    GrowsByOne(data);
    assert KnowsColumns(["a", "b"], data);
    assert Decide(g, call, cells) == Err(NoMatchColumn);
    RefusedUpdateLeaves(g, call, cells);
    PutRowsAt(g, "RAW", cells, 1, [NameCells(["a", "b"])], 1, 1);
    assert Look(cells, 1, 1) == None;
  }

  /**
   One item brings the column b, the other maps a column z there is not; the
   sheet has got b by the time that is said.
   */
  lemma {:induction false} RefusedAppendGrows(g: Google, title: string)
    requires Answer(g, map[(1, 0) := Text("a")], WholeTab(title)) == [[Text("a")]]
    ensures var cells := map[(1, 0) := Text("a")];
            var settings := Settings("RAW", 1, 2, InsertColumn);
            var inputs := [Input(map["b" := Text("x")], Automatic), Input(map[], Manual(map["z" := Text("y")]))];
            var left := LeftByAppend(g, title, settings, inputs, cells);
      && Appended(g, title, settings, inputs, cells) == Err(UnknownColumn)
      && Look(left, 1, 1) == Some(g.enter("RAW", Text("b"))) && left != cells
  {
    hide PutRows, DataOf, ExtraColumns, LeftByAppend, Stands, Settled, RowsFor;
    var cells := map[(1, 0) := Text("a")];
    var settings := Settings("RAW", 1, 2, InsertColumn);
    var inputs := [Input(map["b" := Text("x")], Automatic), Input(map[], Manual(map["z" := Text("y")]))];
    var data := [ItemData(map["b" := Text("x")], true), ItemData(map["z" := Text("y")], false)];
    assert Begin(g, title, settings, cells).snapshot == Snapshot([[Text("a")]], ["a"], 1, 2);
    assert "z" in map["z" := Text("y")];
    ManualSecond(inputs, map["b" := Text("x")], map["z" := Text("y")]);
    GrowsByOne(data);
    assert "z" in data[1].values && !KnowsKeys(["a", "b"], data[1].values);
    assert Appended(g, title, settings, inputs, cells) == Err(UnknownColumn);
    RefusedAppendLeaves(g, title, settings, inputs, cells);
    PutRowsAt(g, "RAW", cells, 1, [NameCells(["a", "b"])], 1, 1);
    assert Look(cells, 1, 1) == None;
  }

  lemma BelowIsEmpty(cells: Cells, n: nat, r: nat, c: nat)
    requires UsedWithin(cells, n)
    ensures r > n ==> Look(cells, r, c) == None
  {
  }

  lemma FirstFreeIsNext(s: Snapshot)
    requires ValidSnapshot(s)
    ensures FirstFree(s) == |s.rows| + 1
  {
  }

  lemma StartIsSound(g: Google, title: string, settings: Settings, cells: Cells)
    requires ReadsAllRows(g, title)
    ensures var start := Begin(g, title, settings, cells);
      ValidSnapshot(start.snapshot) && UsedWithin(start.cells, |start.snapshot.rows|)
  {
  }

  lemma SettledKeepsRows(g: Google, extras: Extras, before: Prepared, data: seq<ItemData>)
    requires ValidSnapshot(before.snapshot)
    ensures var after := Settled(g, extras, before, data).snapshot;
      && after.headerRow == before.snapshot.headerRow && after.firstDataRow == before.snapshot.firstDataRow
      && |after.rows| >= |before.snapshot.rows|
      && forall k :: 0 <= k < |before.snapshot.rows| && k != after.headerRow - 1 ==>
        after.rows[k] == before.snapshot.rows[k]
  {
  }

  // ----- Google's side ----------------------------------------------------

  /** One tab as Google holds it. A call may fail, and a write that fails may still have happened. */
  class Remote {
    const g: Google
    const gid: int
    var cells: Cells
    var rowCount: nat
    var colCount: nat
    /** How many calls have failed. */
    ghost var failures: nat

    /** Whether a call that got as far as done comes back answered; one that does not counts as a failure. */
    method Answers(done: bool) returns (ok: bool)
      modifies `failures
      ensures ok ==> done
      ensures failures == if ok then old(failures) else old(failures) + 1
    {
      ok := *;
      ok := ok && done;
      if !ok {
        failures := failures + 1;
      }
    }

    method Read(key: Reading) returns (r: Option<seq<Row>>)
      modifies `failures
      ensures r.Some? ==> r.value == Answer(g, cells, key)
      ensures failures == if r.Some? then old(failures) else old(failures) + 1
    {
      var answered := Answers(true);
      r := if answered then Some(Answer(g, cells, key)) else None;
    }

    method AppendDimension(rows: nat, columns: nat) returns (ok: bool)
      modifies `rowCount, `colCount, `failures
      ensures failures == if ok then old(failures) else old(failures) + 1
      ensures ok ==> rowCount == old(rowCount) + rows && colCount == old(colCount) + columns
      ensures rowCount >= old(rowCount) && colCount >= old(colCount)
    {
      var done: bool := *;
      if done {
        rowCount, colCount := rowCount + rows, colCount + columns;
      }
      ok := Answers(done);
    }

    /** Writes whole rows; the range has to be inside the grid. */
    method Put(mode: string, r: nat, rows: seq<Row>) returns (ok: bool)
      requires r >= 1 && r + |rows| - 1 <= rowCount
      requires forall k :: 0 <= k < |rows| ==> |rows[k]| <= colCount
      modifies `cells, `failures
      ensures failures == if ok then old(failures) else old(failures) + 1
      ensures ok ==> cells == PutRows(g, mode, old(cells), r, rows)
      ensures cells == old(cells) || cells == PutRows(g, mode, old(cells), r, rows)
    {
      var done: bool := *;
      if done {
        cells := PutRows(g, mode, cells, r, rows);
      }
      ok := Answers(done);
    }

    /** Writes single cells. A failed batch may have been carried out in part. */
    method PutCells(mode: string, writes: seq<Write>) returns (ok: bool)
      modifies `cells, `failures
      ensures failures == if ok then old(failures) else old(failures) + 1
      ensures ok ==> cells == PutBatch(g, mode, old(cells), writes)
    {
      var n: int := *;
      var done := !(0 <= n < |writes|);
      cells := PutBatch(g, mode, cells, if done then writes else writes[..n]);
      ok := Answers(done);
    }
  }

  // ----- Slices -----------------------------------------------------------

  /** A Go slice of rows: the first len items of an array that others may share. */
  datatype Slice = Slice(items: array<Row>, len: nat)

  ghost predicate Fits(s: Slice) { s.len <= s.items.Length }

  ghost function Contents(s: Slice): (rows: seq<Row>)
    requires Fits(s)
    reads s.items
    ensures |rows| == s.len
  {
    s.items[..s.len]
  }

  method FromRows(rows: seq<Row>) returns (s: Slice)
    ensures Fits(s) && fresh(s.items) && Contents(s) == rows
  {
    var items := new Row[|rows|](i requires 0 <= i < |rows| => rows[i]);
    s := Slice(items, |rows|);
    assert items[..|rows|] == rows;
  }

  /** Go's append: in place while the backing array has room, into a new array otherwise. */
  method Append(s: Slice, row: Row) returns (t: Slice)
    requires Fits(s)
    modifies s.items
    ensures Fits(t) && (t.items == s.items || fresh(t.items))
    ensures Contents(t) == old(Contents(s)) + [row]
    ensures Contents(s) == old(Contents(s))
  {
    if s.len < s.items.Length {
      s.items[s.len] := row;
      t := Slice(s.items, s.len + 1);
    } else {
      var grown := new Row[2 * s.len + 1](i requires 0 <= i < 2 * s.len + 1 reads s.items =>
        if i < s.items.Length then s.items[i] else []);
      grown[s.len] := row;
      t := Slice(grown, s.len + 1);
      assert grown[..s.len] == s.items[..s.len];
    }
    assert Contents(t) == t.items[..s.len] + [row];
  }

  // ----- The run ----------------------------------------------------------

  /** What a write works with: the tab, the shadow copy of the sheet and its header. */
  class WriteContext {
    const title: string
    const mode: string
    const headerRow: nat
    const firstDataRow: nat
    const extras: Extras
    var tab: Tab
    var existing: Slice
    var header: seq<string>

    constructor (tab: Tab, settings: Settings, existing: Slice)
      ensures title == tab.title && mode == settings.mode && extras == settings.extras
      ensures headerRow == AtLeastOne(settings.headerRow) && firstDataRow == AtLeastOne(settings.firstDataRow)
      ensures this.tab == tab && this.existing == existing && header == []
    {
      title, mode, extras := tab.title, settings.mode, settings.extras;
      headerRow, firstDataRow := AtLeastOne(settings.headerRow), AtLeastOne(settings.firstDataRow);
      this.tab, this.existing, header := tab, existing, [];
    }

    ghost predicate Sound()
      reads this
    {
      headerRow >= 1 && firstDataRow >= 1 && Fits(existing)
    }

    ghost function Rows(): seq<Row>
      requires Sound()
      reads this, existing.items
    {
      Contents(existing)
    }

    /** The shadow copy and the header as the specification sees them. */
    ghost function View(cells: Cells): Prepared
      requires Sound()
      reads this, existing.items
    {
      Prepared(Snapshot(Rows(), header, headerRow, firstDataRow), cells)
    }

    /** Leaves in header the texts of the shadow copy's row headerRow, none when the copy is shorter. */
    method ReadHeader(g: Google)
      requires Sound()
      modifies `header
      ensures header == HeaderOf(g, Rows(), headerRow)
    {
      header := [];
      if headerRow - 1 >= existing.len {
        return;
      }
      var row := existing.items[headerRow - 1];
      assert row == Rows()[headerRow - 1];
      for k := 0 to |row|
        invariant |header| == k && forall j :: 0 <= j < k ==> header[j] == CellText(g, row[j])
      {
        header := header + [CellText(g, row[k])];
      }
      assert header == Texts(g, row);
    }
  }

  class Run {
    const remote: Remote
    var tabs: seq<Tab>
    var cache: map<Reading, Slice>

    constructor (remote: Remote, tabs: seq<Tab>)
      ensures this.remote == remote && this.tabs == tabs && cache == map[] && Coherent()
    {
      this.remote, this.tabs, cache := remote, tabs, map[];
    }

    /** Every cached range is what the remote grid would answer now. */
    ghost predicate Coherent()
      reads this, remote, set key | key in cache :: cache[key].items
    {
      forall key <- cache :: Fits(cache[key]) && Contents(cache[key]) == Answer(remote.g, remote.cells, key)
    }

    /** No tab is believed to be larger than it is. */
    ghost predicate TabsKnown()
      reads this, remote
    {
      forall k :: 0 <= k < |tabs| ==> TabKnown(tabs[k])
    }

    ghost predicate TabKnown(tab: Tab)
      reads remote
    {
      tab.gid == remote.gid ==> tab.rows <= remote.rowCount && tab.columns <= remote.colCount
    }

    /** The grid is at least as large as believed, and a header is only known where the copy reaches the header row. */
    ghost predicate Fitted(c: WriteContext)
      reads this, remote, c
    {
      && c.Sound() && TabsKnown() && TabKnown(c.tab) && c.tab.gid == remote.gid
      && (c.header != [] ==> c.headerRow <= c.existing.len)
    }

    /** The shadow copy covers every used row. */
    ghost predicate Shadows(c: WriteContext)
      reads this, remote, c
    {
      Fitted(c) && UsedWithin(remote.cells, c.existing.len)
    }

    /** Forgets every cached range, so that the cache is coherent whatever the cells are. */
    method Wrote()
      modifies `cache
      ensures cache == map[]
    {
      cache := map[];
    }

    /** Answers what the grid would, in the slice the cache holds for this key from now on. */
    method Values(key: Reading) returns (r: Option<Slice>)
      requires Coherent()
      modifies `cache, remote`failures
      ensures Coherent()
      ensures remote.failures == if r.Some? then old(remote.failures) else old(remote.failures) + 1
      ensures r.Some? ==> Fits(r.value) && Contents(r.value) == Answer(remote.g, remote.cells, key)
      ensures r.Some? ==> cache == old(cache)[key := r.value]
      ensures r.Some? ==> fresh(r.value.items) || (key in old(cache) && r.value == old(cache)[key])
    {
      if key in cache {
        assert cache == cache[key := cache[key]];
        return Some(cache[key]);
      }
      var rows := remote.Read(key);
      if rows.None? {
        return None;
      }
      var answer := FromRows(rows.value);
      cache := cache[key := answer];
      r := Some(answer);
    }

    /** If ok, the grid has at least this many rows and columns; no cached range and no believed tab size goes stale. */
    method EnsureGrid(c: WriteContext, rows: nat, columns: nat) returns (ok: bool)
      requires Coherent() && Fitted(c)
      modifies `cache, `tabs, c`tab, remote`rowCount, remote`colCount, remote`failures
      ensures Coherent() && Fitted(c)
      ensures remote.failures == if ok then old(remote.failures) else old(remote.failures) + 1
      ensures ok ==> rows <= remote.rowCount && columns <= remote.colCount
      ensures ok ==>
        && remote.rowCount == old(remote.rowCount) + (if rows > old(c.tab.rows) then rows - old(c.tab.rows) else 0)
        && remote.colCount == old(remote.colCount) +
             if columns > old(c.tab.columns) then columns - old(c.tab.columns) else 0
    {
      var moreRows := if rows > c.tab.rows then rows - c.tab.rows else 0;
      var moreColumns := if columns > c.tab.columns then columns - c.tab.columns else 0;
      if moreRows == 0 && moreColumns == 0 {
        return true;
      }
      ok := remote.AppendDimension(moreRows, moreColumns);
      if !ok {
        return;
      }
      c.tab := c.tab.(rows := c.tab.rows + moreRows, columns := c.tab.columns + moreColumns);
      for k := 0 to |tabs|
        invariant |tabs| == |old(tabs)| && TabsKnown()
        modifies `tabs
      {
        if tabs[k].gid == c.tab.gid {
          tabs := tabs[k := c.tab];
        }
      }
      Wrote();
    }

    method PutValues(mode: string, r: nat, rows: seq<Row>) returns (ok: bool)
      requires r >= 1 && r + |rows| - 1 <= remote.rowCount
      requires forall k :: 0 <= k < |rows| ==> |rows[k]| <= remote.colCount
      modifies `cache, remote`cells, remote`failures
      ensures cache == map[]
      ensures remote.failures == if ok then old(remote.failures) else old(remote.failures) + 1
      ensures ok ==> remote.cells == PutRows(remote.g, mode, old(remote.cells), r, rows)
      ensures remote.cells == old(remote.cells) || remote.cells == PutRows(remote.g, mode, old(remote.cells), r, rows)
    {
      ok := remote.Put(mode, r, rows);
      Wrote();
    }

    /**
     Puts header + extra into row headerRow of the grid and of the shadow copy,
     or leaves the copy as it was. The copy may share its array with a cached
     range; that stays coherent because the put has emptied the cache.
     */
    method GrowHeader(c: WriteContext, extra: seq<string>) returns (r: Option<Refusal>)
      requires Coherent() && Shadows(c)
      modifies `cache, `tabs, c, c.existing.items, remote
      ensures r.None? ==> Shadows(c)
      ensures Coherent()
      ensures remote.failures == if r != Some(CallFailed) then old(remote.failures) else old(remote.failures) + 1
      ensures r.None? ==>
        && c.header == old(c.header) + extra != []
        && remote.cells == PutRows(remote.g, "RAW", old(remote.cells), c.headerRow, [NameCells(c.header)])
        && c.Rows() == WithRow(old(c.Rows()), c.headerRow, NameCells(c.header))
      ensures r.None? ==> c.existing.items == old(c.existing.items) || fresh(c.existing.items)
      ensures r.Some? ==> c.existing == old(c.existing) && c.Rows() == old(c.Rows()) && c.header == old(c.header)
      ensures r == Some(NoColumns) <==> old(c.header) + extra == []
      ensures r == Some(NoColumns) ==> remote.cells == old(remote.cells)
      ensures r.Some? ==> r == Some(NoColumns) || r == Some(CallFailed)
    {
      var names := c.header + extra;
      if names == [] {
        return Some(NoColumns);
      }
      var made := EnsureGrid(c, c.headerRow, |names|);
      if !made {
        return Some(CallFailed);
      }
      ghost var before := remote.cells;
      var row := NameCells(names);
      var put := PutValues("RAW", c.headerRow, [row]);
      if !put {
        return Some(CallFailed);
      }
      PutRowsUsed(remote.g, "RAW", before, c.headerRow, [row], c.existing.len);
      PlaceRow(c, row);
      c.header := names;
      r := None;
    }

    /** Makes the shadow copy reach the header row and puts the names there. */
    static method PlaceRow(c: WriteContext, row: Row)
      requires c.Sound()
      modifies c`existing, c.existing.items
      ensures c.Sound() && c.Rows() == WithRow(old(c.Rows()), c.headerRow, row)
      ensures c.existing.items == old(c.existing.items) || fresh(c.existing.items)
    {
      while c.existing.len < c.headerRow
        invariant c.Sound() && (c.existing.items == old(c.existing.items) || fresh(c.existing.items))
        invariant WithRow(c.Rows(), c.headerRow, row) == WithRow(old(c.Rows()), c.headerRow, row)
        decreases c.headerRow - c.existing.len
      {
        c.existing := Append(c.existing, []);
      }
      c.existing.items[c.headerRow - 1] := row;
    }

    /**
     Brings the grid and the shadow copy to Settled, or answers the refusal of
     ColumnRefusal over the cells of AfterColumns.
     */
    method PrepareColumns(c: WriteContext, data: seq<ItemData>) returns (r: Option<Refusal>)
      requires Coherent() && Shadows(c)
      modifies `cache, `tabs, c, c.existing.items, remote
      ensures Coherent()
      ensures remote.failures == if r != Some(CallFailed) then old(remote.failures) else old(remote.failures) + 1
      ensures r.None? ==> Shadows(c)
      ensures r.None? ==> c.View(remote.cells) == Settled(remote.g, c.extras, old(c.View(remote.cells)), data)
      ensures r.None? ==> c.existing.items == old(c.existing.items) || fresh(c.existing.items)
      ensures r != Some(CallFailed) ==> r == ColumnRefusal(c.extras, old(c.header), data)
      ensures r != Some(CallFailed) ==>
        remote.cells == AfterColumns(remote.g, c.extras, old(c.View(remote.cells)), data)
    {
      hide UsedWithin, WithRow, HeaderOf;
      var extra := CollectExtra(c.header, data);
      var anyAuto := exists k :: 0 <= k < |data| && data[k].auto;
      assert anyAuto == AnyAuto(data);
      if anyAuto {
        if c.extras == RefuseField {
          if extra != [] {
            return Some(ExtraFields);
          }
        } else if c.extras == InsertColumn {
          if extra != [] || c.header == [] {
            r := GrowHeader(c, extra);
            if r.Some? {
              return;
            }
          }
        }
      }
      assert c.header == GrownHeader(c.extras, old(c.header), data);
      assert c.View(remote.cells) == Settled(remote.g, c.extras, old(c.View(remote.cells)), data);
      if c.header == [] {
        return Some(NoColumns);
      }
      var known := KnowsColumns(c.header, data);
      r := if known then None else Some(UnknownColumn);
    }

    /**
     Puts rows from row existing.len + 1 on, inside the grid; a copy that
     covered every used row still does, even after a failure.
     */
    method AppendValues(c: WriteContext, rows: seq<Row>) returns (ok: bool)
      requires Coherent() && Fitted(c)
      modifies `cache, `tabs, c`tab, c`existing, c.existing.items, remote
      ensures Coherent() && Fitted(c)
      ensures remote.failures == if ok then old(remote.failures) else old(remote.failures) + 1
      ensures old(Shadows(c)) ==> Shadows(c)
      ensures c.existing.items == old(c.existing.items) || fresh(c.existing.items)
      ensures ok ==> c.Rows() == old(c.Rows()) + rows
      ensures ok ==> remote.cells == if rows == [] then old(remote.cells) else
        PutRows(remote.g, c.mode, old(remote.cells), old(c.existing.len) + 1, rows)
    {
      hide UsedWithin;
      if rows == [] {
        return true;
      }
      var last := LastRow(c.existing.len, c.headerRow, c.header);
      assert last == c.existing.len;
      var first := last + 1;
      var width := WidestRow(rows);
      ok := EnsureGrid(c, first + |rows| - 1, width);
      if !ok {
        return;
      }
      ghost var before := remote.cells;
      ok := PutValues(c.mode, first, rows);
      if UsedWithin(before, last) {
        PutRowsUsed(remote.g, c.mode, before, first, rows, last);
        UsedGrows(before, last, last + |rows|);
      }
      ShadowRows(c, rows);
    }

    /** Reads the whole tab and its header. */
    method ReadContext(tab: Tab, settings: Settings) returns (c: WriteContext?)
      requires Coherent() && TabsKnown() && TabKnown(tab) && tab.gid == remote.gid
      requires ReadsAllRows(remote.g, tab.title)
      modifies `cache, remote`failures
      ensures Coherent()
      ensures remote.failures == if c != null then old(remote.failures) else old(remote.failures) + 1
      ensures c != null ==>
        fresh(c) && Shadows(c) && c.tab == tab && c.mode == settings.mode && c.extras == settings.extras
      ensures c != null ==> c.View(remote.cells) == Begin(remote.g, tab.title, settings, remote.cells)
      ensures c != null ==>
        fresh(c.existing.items) || c.existing.items in old(set key | key in cache :: cache[key].items)
    {
      hide UsedWithin;
      var existing := Values(WholeTab(tab.title));
      if existing.None? {
        return null;
      }
      c := new WriteContext(tab, settings, existing.value);
      c.ReadHeader(remote.g);
    }

    /** Carries a plan out: the single cells in one batch, then the new rows below everything that was read. */
    method CarryOut(c: WriteContext, plan: Plan) returns (ok: bool)
      requires Coherent() && Fitted(c)
      modifies `cache, `tabs, c`tab, c`existing, c.existing.items, remote
      ensures Coherent()
      ensures remote.failures == if ok then old(remote.failures) else old(remote.failures) + 1
      ensures ok ==>
        remote.cells == Carried(remote.g, c.mode, old(remote.cells), old(c.View(remote.cells)).snapshot, plan)
    {
      if plan.writes != [] {
        ok := remote.PutCells(c.mode, plan.writes);
        Wrote();
        if !ok {
          return;
        }
      }
      ok := AppendValues(c, plan.appended);
    }

    /**
     Updates the rows the items are matched to, and with upsert appends the
     items no row was found for.
     */
    method UpdateRows(tab: Tab, call: UpdateCall) returns (r: Result<seq<map<string, Value>>, Refusal>)
      requires Coherent() && TabsKnown() && TabKnown(tab) && tab.gid == remote.gid
      requires call.inputs != [] && call.title == tab.title && ReadsAllRows(remote.g, tab.title)
      modifies `cache, `tabs, remote, set key | key in cache :: cache[key].items
      ensures Coherent()
      ensures remote.failures == if r != Err(CallFailed) then old(remote.failures) else old(remote.failures) + 1
      ensures r.Ok? ==> Updated(remote.g, call, old(remote.cells)) == Ok(remote.cells)
      ensures r.Ok? ==>
        var d := Decide(remote.g, call, old(remote.cells)).value; r.value == Emitted(call, d.data, d.plan)
      ensures r.Err? && r.error != CallFailed ==>
        && Decide(remote.g, call, old(remote.cells)) == Err(r.error)
        && remote.cells == LeftBehind(remote.g, call, old(remote.cells))
    {
      hide UsedWithin, ReadsAllRows, PlanFor, WithRow, HeaderOf, DataOf, Carried, KeyTexts, GrownHeader, KnowsColumns,
           AfterColumns, Emitted, ExtraColumns;
      var c := ReadContext(tab, call.settings);
      if c == null {
        return Err(CallFailed);
      }
      if call.matchColumn.None? {
        return Err(NoMatchColumn);
      }
      var forced := call.upsert && c.existing.len == 0;
      if !forced && c.header == [] {
        return Err(NoColumns);
      }
      var data := CollectData(call.inputs, forced);
      if data.Err? {
        return Err(data.error);
      }
      var refusal := PrepareColumns(c, data.value);
      if refusal.Some? {
        return Err(refusal.value);
      }
      var matcher := MakeMatcher(c, call.read, call.matchColumn.value);
      if matcher.Err? {
        return Err(matcher.error);
      }
      var plan := MakePlan(remote.g, matcher.value, c.header, call.upsert, data.value);
      if plan.Err? {
        PlanFailsOnMatching(remote.g, matcher.value, c.header, call.upsert, data.value, |data.value|);
        return Err(plan.error);
      }
      var ok := CarryOut(c, plan.value);
      if !ok {
        return Err(CallFailed);
      }
      r := Ok(Emitted(call, data.value, plan.value));
    }

    /** Adds one row for each item below everything used. */
    method AppendRows(tab: Tab, settings: Settings, inputs: seq<Input>)
      returns (r: Result<seq<map<string, Value>>, Refusal>)
      requires Coherent() && TabsKnown() && TabKnown(tab) && tab.gid == remote.gid
      requires inputs != [] && ReadsAllRows(remote.g, tab.title)
      modifies `cache, `tabs, remote, set key | key in cache :: cache[key].items
      ensures Coherent()
      ensures remote.failures == if r != Err(CallFailed) then old(remote.failures) else old(remote.failures) + 1
      ensures r.Ok? ==> Appended(remote.g, tab.title, settings, inputs, old(remote.cells)) == Ok(remote.cells)
      ensures r.Ok? ==> r.value == AppendEmits(remote.g, tab.title, settings, inputs, old(remote.cells))
      ensures r.Err? && r.error != CallFailed ==>
        && Appended(remote.g, tab.title, settings, inputs, old(remote.cells)) == Err(r.error)
        && remote.cells == LeftByAppend(remote.g, tab.title, settings, inputs, old(remote.cells))
    {
      hide UsedWithin, ReadsAllRows, WithRow, HeaderOf, DataOf, ColumnRefusal, Settled, RowsFor, PutRows, GrownHeader,
           KnowsColumns, AnyAuto, NameCells, Jsons, SentBy, AfterColumns;
      var c := ReadContext(tab, settings);
      if c == null {
        return Err(CallFailed);
      }
      var data := CollectData(inputs, c.existing.len == 0);
      if data.Err? {
        return Err(data.error);
      }
      var refusal := PrepareColumns(c, data.value);
      if refusal.Some? {
        return Err(refusal.value);
      }
      var rows := LayOut(c.header, data.value);
      var ok := AppendValues(c, rows);
      if !ok {
        return Err(CallFailed);
      }
      r := Ok(if data.value[0].auto then Jsons(inputs) else SentBy(data.value));
    }

    /** Reads the texts of the match column, unless rows are matched by number. */
    method MakeMatcher(c: WriteContext, read: WholeNumber, name: string) returns (r: Result<Matcher, Refusal>)
      requires c.Sound()
      ensures r == MatcherFor(remote.g, read, c.View(remote.cells).snapshot, name)
    {
      hide TextAt, KeyTexts;
      if name == ROW_NUMBER {
        return Ok(ByRowNumber(read));
      }
      if name !in c.header {
        return Err(NoMatchColumn);
      }
      var column := IndexOf(c.header, name).value;
      var keys: seq<string> := [];
      var k := c.firstDataRow - 1;
      while k < c.existing.len
        invariant k >= c.firstDataRow - 1 && (k <= c.existing.len || k == c.firstDataRow - 1)
        invariant |keys| == k - (c.firstDataRow - 1)
        invariant forall j :: 0 <= j < |keys| ==> keys[j] == TextAt(remote.g, c.Rows()[c.firstDataRow - 1 + j], column)
        decreases c.existing.len - k
      {
        keys := keys + [TextAt(remote.g, c.existing.items[k], column)];
        k := k + 1;
      }
      assert keys == KeyTexts(remote.g, c.Rows(), column, c.firstDataRow - 1);
      r := Ok(ByColumn(name, keys, c.firstDataRow));
    }

    static method ShadowRows(c: WriteContext, rows: seq<Row>)
      requires c.Sound()
      modifies c`existing, c.existing.items
      ensures c.Sound() && c.Rows() == old(c.Rows()) + rows
      ensures c.existing.items == old(c.existing.items) || fresh(c.existing.items)
    {
      for k := 0 to |rows|
        invariant c.Sound() && (c.existing.items == old(c.existing.items) || fresh(c.existing.items))
        invariant c.Rows() == old(c.Rows()) + rows[..k]
      {
        c.existing := Append(c.existing, rows[k]);
        assert rows[..k] + [rows[k]] == rows[..k + 1];
      }
      assert rows[..|rows|] == rows;
    }
  }

  method LayOut(header: seq<string>, data: seq<ItemData>) returns (rows: seq<Row>)
    ensures rows == RowsFor(header, data)
  {
    hide RowFor;
    rows := [];
    for k := 0 to |data|
      invariant |rows| == k
      invariant forall j :: 0 <= j < k ==> rows[j] == RowFor(header, data[j].values, Text(""))
    {
      rows := rows + [RowFor(header, data[k].values, Text(""))];
    }
  }

  method CollectData(inputs: seq<Input>, forced: bool) returns (r: Result<seq<ItemData>, Refusal>)
    ensures r == DataOf(inputs, forced, |inputs|)
  {
    hide ItemValues;
    var data: seq<ItemData> := [];
    for k := 0 to |inputs|
      invariant DataOf(inputs, forced, k) == Ok(data)
    {
      var item := ItemValues(k, inputs[k], forced);
      if item.Err? {
        RefusalStays(inputs, forced, k + 1, |inputs|);
        return Err(item.error);
      }
      data := data + [item.value];
    }
    r := Ok(data);
  }

  lemma {:induction false} RefusalStays(inputs: seq<Input>, forced: bool, k: nat, n: nat)
    requires k <= n <= |inputs| && DataOf(inputs, forced, k).Err?
    ensures DataOf(inputs, forced, n) == DataOf(inputs, forced, k)
    decreases n
  {
    if k < n {
      RefusalStays(inputs, forced, k, n - 1);
    }
  }

  /** What every matched item writes and every unmatched item of an upsert appends, in order. */
  method MakePlan(g: Google, m: Matcher, header: seq<string>, upsert: bool, data: seq<ItemData>)
    returns (r: Result<Plan, Refusal>)
    ensures r == PlanFor(g, m, header, upsert, data, |data|)
  {
    hide RowOf, Sends, RowFor;
    var writes: seq<Write>, appended: seq<Row> := [], [];
    for k := 0 to |data|
      invariant PlanFor(g, m, header, upsert, data, k) == Ok(Plan(writes, appended))
    {
      var row := RowOf(g, m, data[k], k);
      if row.Err? {
        PlanRefusalStays(g, m, header, upsert, data, k + 1, |data|);
        return Err(row.error);
      }
      if row.value == 0 {
        if upsert {
          appended := appended + [RowFor(header, data[k].values, Text(""))];
        }
        continue;
      }
      ghost var before := writes;
      for column := 0 to |header|
        invariant writes == before + ItemWrites(m, header, data[k], row.value, column)
      {
        var name := header[column];
        if Sends(m, data[k], name) {
          writes := writes + [Write(row.value, column, SentValue(m, data[k], name))];
        }
      }
    }
    r := Ok(Plan(writes, appended));
  }

  lemma {:induction false} PlanRefusalStays(g: Google, m: Matcher, header: seq<string>, upsert: bool,
                                            data: seq<ItemData>, k: nat, n: nat)
    requires k <= n <= |data| && PlanFor(g, m, header, upsert, data, k).Err?
    ensures PlanFor(g, m, header, upsert, data, n) == PlanFor(g, m, header, upsert, data, k)
    decreases n
  {
    if k < n {
      PlanRefusalStays(g, m, header, upsert, data, k, n - 1);
    }
  }

  lemma UsedGrows(cells: Cells, n: nat, m: nat)
    requires UsedWithin(cells, n) && n <= m
    ensures UsedWithin(cells, m)
  {
  }

  method WidestRow(rows: seq<Row>) returns (width: nat)
    ensures forall k :: 0 <= k < |rows| ==> |rows[k]| <= width
    ensures width == 0 || exists k :: 0 <= k < |rows| && |rows[k]| == width
  {
    width := 0;
    for k := 0 to |rows|
      invariant forall j :: 0 <= j < k ==> |rows[j]| <= width
      invariant width == 0 || exists j :: 0 <= j < k && |rows[j]| == width
    {
      if |rows[k]| > width {
        width := |rows[k]|;
      }
    }
  }

  /** The new columns in dictionary order, in whatever order the maps give out their keys. */
  method CollectExtra(header: seq<string>, data: seq<ItemData>) returns (names: seq<string>)
    ensures names == ExtraColumns(header, data)
  {
    var extra: set<string> := {};
    for k := 0 to |data|
      invariant extra == ExtraKeys(header, data[..k])
    {
      if data[k].auto {
        extra := extra + (set key | key in data[k].values && key != ROW_NUMBER && key !in header);
      }
      MoreExtraKeys(header, data, k);
    }
    assert data[..|data|] == data;
    names := Order.SortKeys(extra);
  }

  lemma MoreExtraKeys(header: seq<string>, data: seq<ItemData>, k: nat)
    requires k < |data|
    ensures ExtraKeys(header, data[..k + 1]) == ExtraKeys(header, data[..k]) +
      if data[k].auto then set key | key in data[k].values && key != ROW_NUMBER && key !in header else {}
  {
    var all, before := data[..k + 1], data[..k];
    forall key | key in ExtraKeys(header, all)
      ensures key in ExtraKeys(header, before) ||
        (data[k].auto && key in data[k].values && key != ROW_NUMBER && key !in header)
    {
      var j: nat :| j < |all| && all[j].auto && key in all[j].values && key != ROW_NUMBER && key !in header;
      assert j < k ==> before[j] == all[j];
    }
    forall key | key in ExtraKeys(header, before) ensures key in ExtraKeys(header, all) {
      var j: nat :| j < |before| && before[j].auto && key in before[j].values && key != ROW_NUMBER && key !in header;
      assert all[j] == before[j];
    }
    assert all[k] == data[k];
  }
}
