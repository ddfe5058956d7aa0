/**
 What a write of the data table tool is let through by (nodes/datastore.go),
 and when that means that its structure is literal.
 */
module DatastoreTool {
  import opened Wrappers
  import opened JsonValues
  import opened Decimals
  import opened DatastoreRule
  import Order

  /** Outside the slots: no marker, and no plain string that calls $fromAI. */
  predicate Plain(l: Library, j: Json, at: Path) {
    Slot(at) || (!Marked(j) && match j
      case Str(s) => !StringCalls(l, s)
      case Obj(m) => forall k <- m :: Plain(l, m[k], at + [Key(k)])
      case Arr(s) => forall k :: 0 <= k < |s| ==> Plain(l, s[k], at + [Index(k)])
      case _ => true)
  }

  predicate Unmarked(j: Json, at: Path) {
    Slot(at) || (!Marked(j) && match j
      case Obj(m) => forall k <- m :: Unmarked(m[k], at + [Key(k)])
      case Arr(s) => forall k :: 0 <= k < |s| ==> Unmarked(s[k], at + [Index(k)])
      case _ => true)
  }

  /** Places no slot is at or below. */
  predicate Closed(at: Path) {
    && at != [] && at[0].Key? && at[0].name !in SKIPPED
    && (at[0].name == "columns" ==> |at| >= 2 && (at[1] != Key("value") || (|at| >= 3 && !at[2].Key?)))
    && (at[0].name == "filters" ==>
      |at| >= 2 && (at[1] != Key("conditions") ||
        (|at| >= 3 && (!at[2].Index? || (|at| >= 4 && at[3] != Key("keyValue"))))))
  }

  lemma ClosedStays(at: Path, s: Segment)
    requires Closed(at)
    ensures !Slot(at) && Closed(at + [s])
  {
  }

  // ----- The walk finds nothing exactly when the tree is unmarked ----------

  lemma {:induction false} NoMarkersIff(j: Json, at: Path)
    ensures Markers(j, at) == [] <==> Unmarked(j, at)
    decreases j, 1, 0
  {
    hide Slot, Marked;
    if !Slot(at) && !Marked(j) {
      if j.Obj? {
        var keys := Order.Sorted(j.fields.Keys);
        NoKeyMarkersIff(j, keys, at);
      } else if j.Arr? {
        NoItemMarkersIff(j, |j.items|, at);
      }
    }
  }

  lemma {:induction false} NoKeyMarkersIff(j: Json, keys: seq<string>, at: Path)
    requires j.Obj? && forall k :: 0 <= k < |keys| ==> keys[k] in j.fields
    ensures MarkersOfKeys(j, keys, at) == [] <==>
      forall k :: 0 <= k < |keys| ==> Unmarked(j.fields[keys[k]], at + [Key(keys[k])])
    decreases j, 0, |keys|
  {
    hide Slot, Marked, Unmarked;
    if keys != [] {
      var last := keys[|keys| - 1];
      NoKeyMarkersIff(j, keys[..|keys| - 1], at);
      NoMarkersIff(j.fields[last], at + [Key(last)]);
    }
  }

  lemma {:induction false} NoItemMarkersIff(j: Json, n: nat, at: Path)
    requires j.Arr? && n <= |j.items|
    ensures MarkersOfItems(j, n, at) == [] <==> forall k :: 0 <= k < n ==> Unmarked(j.items[k], at + [Index(k)])
    decreases j, 0, n
  {
    hide Slot, Marked, Unmarked;
    if n > 0 {
      NoItemMarkersIff(j, n - 1, at);
      NoMarkersIff(j.items[n - 1], at + [Index(n - 1)]);
    }
  }

  // ----- Calls outside the slots ------------------------------------------

  /** A tree without markers that calls nothing is plain. */
  lemma {:induction false} UncallingIsPlain(l: Library, j: Json, at: Path)
    requires Unmarked(j, at) && !CallsFromAI(l, j)
    ensures Plain(l, j, at)
    decreases j
  {
    hide Slot, StringCalls;
    if !Slot(at) {
      if j.Obj? {
        forall k | k in j.fields ensures Plain(l, j.fields[k], at + [Key(k)]) {
          UncallingIsPlain(l, j.fields[k], at + [Key(k)]);
        }
      } else if j.Arr? {
        forall k | 0 <= k < |j.items| ensures Plain(l, j.items[k], at + [Index(k)]) {
          UncallingIsPlain(l, j.items[k], at + [Index(k)]);
        }
      }
    }
  }

  /** Where no slot is at or below, a plain tree calls nothing. */
  lemma {:induction false} PlainIsUncalling(l: Library, j: Json, at: Path)
    requires Plain(l, j, at) && Closed(at)
    ensures !CallsFromAI(l, j)
    decreases j
  {
    hide Slot, StringCalls, Closed;
    ClosedStays(at, Index(0));
    if j.Obj? {
      forall k | k in j.fields ensures !CallsFromAI(l, j.fields[k]) {
        ClosedStays(at, Key(k));
        PlainIsUncalling(l, j.fields[k], at + [Key(k)]);
      }
    } else if j.Arr? {
      forall k | 0 <= k < |j.items| ensures !CallsFromAI(l, j.items[k]) {
        ClosedStays(at, Index(k));
        PlainIsUncalling(l, j.items[k], at + [Index(k)]);
      }
    }
  }

  lemma {:induction false} PlainIsUnmarked(l: Library, j: Json, at: Path)
    requires Plain(l, j, at)
    ensures Unmarked(j, at)
    decreases j
  {
    hide Slot, StringCalls, Marked;
    if !Slot(at) {
      if j.Obj? {
        forall k | k in j.fields ensures Unmarked(j.fields[k], at + [Key(k)]) {
          PlainIsUnmarked(l, j.fields[k], at + [Key(k)]);
        }
      } else if j.Arr? {
        forall k | 0 <= k < |j.items| ensures Unmarked(j.items[k], at + [Index(k)]) {
          PlainIsUnmarked(l, j.items[k], at + [Index(k)]);
        }
      }
    }
  }

  /** Inside a closed place, plain and not calling are the same. */
  lemma ClosedPart(l: Library, j: Json, at: Path)
    requires Unmarked(j, at) && Closed(at)
    ensures Plain(l, j, at) <==> !CallsFromAI(l, j)
  {
    hide Slot, StringCalls, Closed, CallsFromAI;
    if Plain(l, j, at) {
      PlainIsUncalling(l, j, at);
    } else if !CallsFromAI(l, j) {
      UncallingIsPlain(l, j, at);
    }
  }

  /** So they are for a list or a scalar whose items are closed places. */
  lemma ListPart(l: Library, j: Json, at: Path)
    requires Unmarked(j, at) && !j.Obj? && !Slot(at) && (j.Arr? ==> forall k: nat :: Closed(at + [Index(k)]))
    ensures Plain(l, j, at) <==> !CallsFromAI(l, j)
  {
    hide Slot, StringCalls, Closed;
    if j.Arr? {
      forall k | 0 <= k < |j.items|
        ensures Plain(l, j.items[k], at + [Index(k)]) <==> !CallsFromAI(l, j.items[k])
      {
        ClosedPart(l, j.items[k], at + [Index(k)]);
      }
    }
  }

  // ----- The refusal of calls in the structure ------------------------------

  /** A map that is walked into: one that is not evaluated as a whole. */
  predicate PlainMap(j: Json) { j.Obj? && !IsExpression(j) }

  function RowPath(index: nat): string { "filters.conditions[" + Decimal(index) + "]" }

  ghost function FirstSlot(l: Library, row: map<string, Json>, keys: seq<string>, index: nat): (r: Option<string>)
    requires forall k :: 0 <= k < |keys| ==> keys[k] in row
    ensures r.None? <==> forall k :: 0 <= k < |keys| ==> keys[k] == "keyValue" || !CallsFromAI(l, row[keys[k]])
  {
    if keys == [] then None
    else if keys[0] != "keyValue" && CallsFromAI(l, row[keys[0]]) then Some(RowPath(index) + "." + keys[0])
    else FirstSlot(l, row, keys[1..], index)
  }

  ghost function RowRefused(l: Library, entry: Json, index: nat): Option<string> {
    if PlainMap(entry) then FirstSlot(l, entry.fields, Order.Sorted(entry.fields.Keys), index)
    else if CallsFromAI(l, entry) then Some(RowPath(index)) else None
  }

  ghost function FirstRow(l: Library, rows: seq<Json>, index: nat): (r: Option<string>)
    requires index <= |rows|
    ensures r.None? <==> forall k :: index <= k < |rows| ==> RowRefused(l, rows[k], k).None?
    decreases |rows| - index
  {
    if index == |rows| then None else
    var here := RowRefused(l, rows[index], index);
    if here.Some? then here else FirstRow(l, rows, index + 1)
  }

  ghost function FilterRefused(l: Library, field: string, value: Json): Option<string> {
    if field == "conditions" && value.Arr? then FirstRow(l, value.items, 0)
    else if CallsFromAI(l, value) then Some("filters." + field) else None
  }

  ghost function FirstFilter(l: Library, filters: map<string, Json>, keys: seq<string>): (r: Option<string>)
    requires forall k :: 0 <= k < |keys| ==> keys[k] in filters
    ensures r.None? <==> forall k :: 0 <= k < |keys| ==> FilterRefused(l, keys[k], filters[keys[k]]).None?
  {
    if keys == [] then None else
    var here := FilterRefused(l, keys[0], filters[keys[0]]);
    if here.Some? then here else FirstFilter(l, filters, keys[1..])
  }

  /** The one field of columns in which calls are allowed. */
  predicate MappedColumns(field: string, value: Json) { field == "value" && PlainMap(value) }

  predicate ColumnRefused(l: Library, field: string, value: Json) {
    !MappedColumns(field, value) && CallsFromAI(l, value)
  }

  function ColumnPath(field: string): string { "columns." + field }

  ghost function FirstColumn(l: Library, columns: map<string, Json>, keys: seq<string>): (r: Option<string>)
    requires forall k :: 0 <= k < |keys| ==> keys[k] in columns
    ensures r.None? <==> forall k :: 0 <= k < |keys| ==> !ColumnRefused(l, keys[k], columns[keys[k]])
  {
    if keys == [] then None
    else if ColumnRefused(l, keys[0], columns[keys[0]]) then Some(ColumnPath(keys[0]))
    else FirstColumn(l, columns, keys[1..])
  }

  ghost function KeyRefused(l: Library, key: string, value: Json): Option<string> {
    if key == "columns" && PlainMap(value) then FirstColumn(l, value.fields, Order.Sorted(value.fields.Keys))
    else if key == "filters" && PlainMap(value) then FirstFilter(l, value.fields, Order.Sorted(value.fields.Keys))
    else if CallsFromAI(l, value) then Some(key) else None
  }

  /** The first structure part, in sorted order, that calls $fromAI. */
  ghost function FirstRefused(l: Library, parameters: map<string, Json>, keys: seq<string>): (r: Option<string>)
    requires forall k :: 0 <= k < |keys| ==> keys[k] in parameters
    ensures r.None? <==> forall k :: 0 <= k < |keys| ==> KeyRefused(l, keys[k], parameters[keys[k]]).None?
  {
    if keys == [] then None else
    var here := KeyRefused(l, keys[0], parameters[keys[0]]);
    if here.Some? then here else FirstRefused(l, parameters, keys[1..])
  }

  method RefuseRow(l: Library, entry: Json, index: nat) returns (r: Option<string>)
    ensures r == RowRefused(l, entry, index)
  {
    hide CallsFromAI, IsExpression, RowPath, FirstSlot;
    if !PlainMap(entry) {
      return if CallsFromAI(l, entry) then Some(RowPath(index)) else None;
    }
    var row := entry.fields;
    var keys := Order.SortKeys(row.Keys);
    for k := 0 to |keys|
      invariant FirstSlot(l, row, keys, index) == FirstSlot(l, row, keys[k..], index)
    {
      NextSlot(l, row, keys, index, k);
      if keys[k] != "keyValue" && CallsFromAI(l, row[keys[k]]) {
        return Some(RowPath(index) + "." + keys[k]);
      }
    }
    NoSlotLeft(l, row, keys, index);
    r := None;
  }

  lemma NextSlot(l: Library, row: map<string, Json>, keys: seq<string>, index: nat, k: nat)
    requires k < |keys| && forall i :: 0 <= i < |keys| ==> keys[i] in row
    ensures FirstSlot(l, row, keys[k..], index) ==
      if keys[k] != "keyValue" && CallsFromAI(l, row[keys[k]]) then Some(RowPath(index) + "." + keys[k])
      else FirstSlot(l, row, keys[k + 1..], index)
  {
    hide CallsFromAI, RowPath;
    assert keys[k..][1..] == keys[k + 1..];
  }

  lemma NoSlotLeft(l: Library, row: map<string, Json>, keys: seq<string>, index: nat)
    ensures FirstSlot(l, row, keys[|keys|..], index).None? && keys[0..] == keys
  {
  }

  method RefuseFilters(l: Library, filters: map<string, Json>) returns (r: Option<string>)
    ensures r == FirstFilter(l, filters, Order.Sorted(filters.Keys))
  {
    hide CallsFromAI, IsExpression, RowRefused;
    var keys := Order.SortKeys(filters.Keys);
    for k := 0 to |keys|
      invariant FirstFilter(l, filters, keys) == FirstFilter(l, filters, keys[k..])
    {
      assert keys[k..][1..] == keys[k + 1..];
      var value := filters[keys[k]];
      if keys[k] != "conditions" || !value.Arr? {
        if CallsFromAI(l, value) {
          return Some("filters." + keys[k]);
        }
        continue;
      }
      for index := 0 to |value.items|
        invariant FirstRow(l, value.items, 0) == FirstRow(l, value.items, index)
      {
        r := RefuseRow(l, value.items[index], index);
        if r.Some? {
          return;
        }
      }
    }
    r := None;
  }

  method RefuseColumns(l: Library, columns: map<string, Json>) returns (r: Option<string>)
    ensures r == FirstColumn(l, columns, Order.Sorted(columns.Keys))
  {
    hide ColumnRefused, ColumnPath, FirstColumn;
    var keys := Order.SortKeys(columns.Keys);
    for k := 0 to |keys|
      invariant FirstColumn(l, columns, keys) == FirstColumn(l, columns, keys[k..])
    {
      NextColumn(l, columns, keys, k);
      if ColumnRefused(l, keys[k], columns[keys[k]]) {
        return Some(ColumnPath(keys[k]));
      }
    }
    NoColumnLeft(l, columns, keys);
    r := None;
  }

  lemma NextColumn(l: Library, columns: map<string, Json>, keys: seq<string>, k: nat)
    requires k < |keys| && forall i :: 0 <= i < |keys| ==> keys[i] in columns
    ensures FirstColumn(l, columns, keys[k..]) ==
      if ColumnRefused(l, keys[k], columns[keys[k]]) then Some(ColumnPath(keys[k]))
      else FirstColumn(l, columns, keys[k + 1..])
  {
    assert keys[k..][1..] == keys[k + 1..];
  }

  lemma NoColumnLeft(l: Library, columns: map<string, Json>, keys: seq<string>)
    ensures FirstColumn(l, columns, keys[|keys|..]).None? && keys[0..] == keys
  {
  }

  /** The first parameter part, in sorted order, that is structure and calls $fromAI, or none. */
  method RefuseStructureFromAI(l: Library, parameters: map<string, Json>) returns (r: Option<string>)
    ensures r == FirstRefused(l, parameters, Order.Sorted(parameters.Keys))
  {
    hide CallsFromAI, IsExpression;
    var keys := Order.SortKeys(parameters.Keys);
    for k := 0 to |keys|
      invariant FirstRefused(l, parameters, keys) == FirstRefused(l, parameters, keys[k..])
    {
      assert keys[k..][1..] == keys[k + 1..];
      var value := parameters[keys[k]];
      if keys[k] == "columns" && PlainMap(value) {
        r := RefuseColumns(l, value.fields);
      } else if keys[k] == "filters" && PlainMap(value) {
        r := RefuseFilters(l, value.fields);
      } else {
        r := if CallsFromAI(l, value) then Some(keys[k]) else None;
      }
      if r.Some? {
        return;
      }
    }
    r := None;
  }

  // ----- The two refusals together are one structural rule -------------------

  /**
   What a write's parameters have to be: plain outside the slots, and no call
   in the tool's own name or description.
   */
  predicate Literal(l: Library, parameters: map<string, Json>) {
    forall k <- parameters :: Plain(l, parameters[k], [Key(k)]) && (k in SKIPPED ==> !CallsFromAI(l, parameters[k]))
  }

  lemma ColumnsIff(l: Library, columns: Json)
    requires columns.Obj? && Unmarked(columns, [Key("columns")])
    ensures FirstColumn(l, columns.fields, Order.Sorted(columns.fields.Keys)).None? <==>
      Plain(l, columns, [Key("columns")])
  {
    hide CallsFromAI, StringCalls;
    var at := [Key("columns")];
    var keys := Order.Sorted(columns.fields.Keys);
    assert forall k <- columns.fields :: k in keys;
    forall k | k in columns.fields
      ensures !ColumnRefused(l, k, columns.fields[k]) <==> Plain(l, columns.fields[k], at + [Key(k)])
    {
      var inner := at + [Key(k)];
      assert inner == [Key("columns"), Key(k)];
      var v := columns.fields[k];
      if k != "value" {
        ClosedPart(l, v, inner);
      } else if !v.Obj? {
        ListPart(l, v, inner);
      } else {
        ValueMapIsPlain(l, v);
      }
    }
  }

  /** The mapped columns are slots, every one. */
  lemma ValueMapIsPlain(l: Library, v: Json)
    requires v.Obj? && Unmarked(v, [Key("columns"), Key("value")])
    ensures Plain(l, v, [Key("columns"), Key("value")]) && PlainMap(v)
  {
    hide CallsFromAI, StringCalls;
    var at := [Key("columns"), Key("value")];
    forall k | k in v.fields ensures Slot(at + [Key(k)]) {
      assert (at + [Key(k)])[1..] == [Key("value"), Key(k)];
    }
  }

  lemma FiltersIff(l: Library, filters: Json)
    requires filters.Obj? && Unmarked(filters, [Key("filters")])
    ensures FirstFilter(l, filters.fields, Order.Sorted(filters.fields.Keys)).None? <==>
      Plain(l, filters, [Key("filters")])
  {
    hide CallsFromAI, StringCalls, FirstRow;
    var at := [Key("filters")];
    var keys := Order.Sorted(filters.fields.Keys);
    assert forall k <- filters.fields :: k in keys;
    forall k | k in filters.fields
      ensures FilterRefused(l, k, filters.fields[k]).None? <==> Plain(l, filters.fields[k], at + [Key(k)])
    {
      var v := filters.fields[k];
      assert at + [Key(k)] == [Key("filters"), Key(k)];
      if k == "conditions" && v.Arr? {
        ConditionsIff(l, v);
      } else if k == "conditions" {
        ConditionsPart(l, v);
      } else {
        ClosedPart(l, v, at + [Key(k)]);
      }
    }
  }

  /** Conditions that are not a list have no slots. */
  lemma ConditionsPart(l: Library, v: Json)
    requires !v.Arr? && Unmarked(v, [Key("filters"), Key("conditions")])
    ensures Plain(l, v, [Key("filters"), Key("conditions")]) <==> !CallsFromAI(l, v)
  {
    hide CallsFromAI, StringCalls;
    var at := [Key("filters"), Key("conditions")];
    if v.Obj? {
      forall k | k in v.fields ensures Plain(l, v.fields[k], at + [Key(k)]) <==> !CallsFromAI(l, v.fields[k]) {
        ClosedPart(l, v.fields[k], at + [Key(k)]);
      }
      MapCalls(l, v);
    } else {
      ListPart(l, v, at);
    }
  }

  lemma MapCalls(l: Library, v: Json)
    requires v.Obj? && !IsExpression(v)
    ensures CallsFromAI(l, v) <==> exists k <- v.fields :: CallsFromAI(l, v.fields[k])
  {
  }

  lemma ConditionsIff(l: Library, v: Json)
    requires v.Arr? && Unmarked(v, [Key("filters"), Key("conditions")])
    ensures FirstRow(l, v.items, 0).None? <==> Plain(l, v, [Key("filters"), Key("conditions")])
  {
    hide CallsFromAI, StringCalls, RowRefused, FirstSlot;
    var at := [Key("filters"), Key("conditions")];
    forall k | 0 <= k < |v.items|
      ensures RowRefused(l, v.items[k], k).None? <==> Plain(l, v.items[k], at + [Index(k)])
    {
      assert at + [Index(k)] == [Key("filters"), Key("conditions"), Index(k)];
      RowIff(l, v.items[k], k);
    }
  }

  lemma RowIff(l: Library, entry: Json, index: nat)
    requires Unmarked(entry, [Key("filters"), Key("conditions"), Index(index)])
    ensures RowRefused(l, entry, index).None? <==> Plain(l, entry, [Key("filters"), Key("conditions"), Index(index)])
  {
    hide CallsFromAI, StringCalls;
    var at := [Key("filters"), Key("conditions"), Index(index)];
    if entry.Obj? {
      var keys := Order.Sorted(entry.fields.Keys);
      assert forall k <- entry.fields :: k in keys;
      forall k | k in entry.fields
        ensures k == "keyValue" || !CallsFromAI(l, entry.fields[k]) <==> Plain(l, entry.fields[k], at + [Key(k)])
      {
        if k == "keyValue" {
          KeyValueIsSlot(index);
        } else {
          ClosedPart(l, entry.fields[k], at + [Key(k)]);
        }
      }
    } else {
      ListPart(l, entry, at);
    }
  }

  lemma KeyValueIsSlot(index: nat)
    ensures Slot([Key("filters"), Key("conditions"), Index(index)] + [Key("keyValue")])
  {
    var path := [Key("filters"), Key("conditions"), Index(index)] + [Key("keyValue")];
    assert path[1..] == [Key("conditions"), Index(index), Key("keyValue")];
  }

  lemma KeyIff(l: Library, key: string, value: Json)
    requires Unmarked(value, [Key(key)])
    ensures KeyRefused(l, key, value).None? <==>
      Plain(l, value, [Key(key)]) && (key in SKIPPED ==> !CallsFromAI(l, value))
  {
    hide CallsFromAI, FirstColumn, FirstFilter;
    if key in SKIPPED {
    } else if key == "columns" && value.Obj? {
      ColumnsIff(l, value);
    } else if key == "filters" && value.Obj? {
      FiltersIff(l, value);
    } else if key == "columns" || key == "filters" {
      ListPart(l, value, [Key(key)]);
    } else {
      ClosedPart(l, value, [Key(key)]);
    }
  }

  /** The walk and the refusal of calls find nothing exactly in the literal parameters. */
  lemma FindsNothingIffLiteral(l: Library, parameters: map<string, Json>)
    ensures StructureMarkers(parameters) == [] && FirstRefused(l, parameters, Order.Sorted(parameters.Keys)).None?
      <==> Literal(l, parameters)
  {
    hide CallsFromAI, KeyRefused, Plain, Unmarked;
    var keys := Order.Sorted(parameters.Keys);
    NoKeyMarkersIff(Obj(parameters), keys, []);
    assert forall k <- parameters :: k in keys;
    forall k | k in parameters
      ensures KeyRefused(l, k, parameters[k]).None? && Unmarked(parameters[k], [Key(k)]) <==>
        Plain(l, parameters[k], [Key(k)]) && (k in SKIPPED ==> !CallsFromAI(l, parameters[k]))
    {
      if Unmarked(parameters[k], [Key(k)]) {
        KeyIff(l, k, parameters[k]);
      } else if Plain(l, parameters[k], [Key(k)]) {
        PlainIsUnmarked(l, parameters[k], [Key(k)]);
      }
    }
    forall i | 0 <= i < |keys| ensures [] + [Key(keys[i])] == [Key(keys[i])] {
    }
  }

  /** What a write is let through by: the first marker's text is empty, and no structure part calls $fromAI. */
  ghost predicate LetThrough(l: Library, parameters: map<string, Json>) {
    FirstExpression(parameters) == "" && FirstRefused(l, parameters, Order.Sorted(parameters.Keys)).None?
  }

  /** A write is let through with a literal structure exactly when it has no marker directly under the empty name. */
  lemma LetThroughIsLiteralIff(l: Library, parameters: map<string, Json>)
    ensures LetThrough(l, parameters) && !UnnamedMarker(parameters) <==> Literal(l, parameters)
    ensures LetThrough(l, parameters) ==>
      (Literal(l, parameters) <==> !UnnamedMarker(parameters))
      && (StructureMarkers(parameters) == [] <==> !UnnamedMarker(parameters))
  {
    hide Literal, StructureMarkers, UnnamedMarker;
    FindsNothingIffLiteral(l, parameters);
    FirstIsUnnamedIff(parameters);
  }

  // ----- No calls, whatever markers there are ---------------------------------

  /** Outside the slots and the markers, no plain string calls $fromAI. */
  predicate Quiet(l: Library, j: Json, at: Path) {
    Slot(at) || Marked(j) || match j
      case Str(s) => !StringCalls(l, s)
      case Obj(m) => forall k <- m :: Quiet(l, m[k], at + [Key(k)])
      case Arr(s) => forall k :: 0 <= k < |s| ==> Quiet(l, s[k], at + [Index(k)])
      case _ => true
  }

  lemma {:induction false} UncallingIsQuiet(l: Library, j: Json, at: Path)
    requires !CallsFromAI(l, j)
    ensures Quiet(l, j, at)
    decreases j
  {
    hide Slot, StringCalls;
    if !Marked(j) {
      if j.Obj? {
        forall k | k in j.fields ensures Quiet(l, j.fields[k], at + [Key(k)]) {
          UncallingIsQuiet(l, j.fields[k], at + [Key(k)]);
        }
      } else if j.Arr? {
        forall k | 0 <= k < |j.items| ensures Quiet(l, j.items[k], at + [Index(k)]) {
          UncallingIsQuiet(l, j.items[k], at + [Index(k)]);
        }
      }
    }
  }

  lemma ColumnsQuiet(l: Library, columns: Json)
    requires columns.Obj? && FirstColumn(l, columns.fields, Order.Sorted(columns.fields.Keys)).None?
    ensures Quiet(l, columns, [Key("columns")])
  {
    hide CallsFromAI, StringCalls;
    var at := [Key("columns")];
    var keys := Order.Sorted(columns.fields.Keys);
    forall k | k in columns.fields ensures Quiet(l, columns.fields[k], at + [Key(k)]) {
      assert k in keys && !ColumnRefused(l, k, columns.fields[k]);
      if MappedColumns(k, columns.fields[k]) {
        ValueMapIsQuiet(l, columns.fields[k]);
        assert at + [Key(k)] == [Key("columns"), Key("value")];
      } else {
        UncallingIsQuiet(l, columns.fields[k], at + [Key(k)]);
      }
    }
  }

  lemma ValueMapIsQuiet(l: Library, v: Json)
    requires v.Obj?
    ensures Quiet(l, v, [Key("columns"), Key("value")])
  {
    hide StringCalls;
    var at := [Key("columns"), Key("value")];
    forall k | k in v.fields ensures Slot(at + [Key(k)]) {
      assert (at + [Key(k)])[1..] == [Key("value"), Key(k)];
    }
  }

  lemma RowQuiet(l: Library, entry: Json, index: nat)
    requires RowRefused(l, entry, index).None?
    ensures Quiet(l, entry, [Key("filters"), Key("conditions"), Index(index)])
  {
    hide CallsFromAI, StringCalls;
    var at := [Key("filters"), Key("conditions"), Index(index)];
    if PlainMap(entry) {
      var keys := Order.Sorted(entry.fields.Keys);
      forall k | k in entry.fields ensures Quiet(l, entry.fields[k], at + [Key(k)]) {
        assert k in keys;
        if k == "keyValue" {
          KeyValueIsSlot(index);
        } else {
          UncallingIsQuiet(l, entry.fields[k], at + [Key(k)]);
        }
      }
    } else {
      UncallingIsQuiet(l, entry, at);
    }
  }

  lemma FiltersQuiet(l: Library, filters: Json)
    requires filters.Obj? && FirstFilter(l, filters.fields, Order.Sorted(filters.fields.Keys)).None?
    ensures Quiet(l, filters, [Key("filters")])
  {
    hide CallsFromAI, StringCalls, RowRefused;
    var at := [Key("filters")];
    var keys := Order.Sorted(filters.fields.Keys);
    forall k | k in filters.fields ensures Quiet(l, filters.fields[k], at + [Key(k)]) {
      var v := filters.fields[k];
      assert k in keys && FilterRefused(l, k, v).None?;
      if k == "conditions" && v.Arr? {
        assert at + [Key(k)] == [Key("filters"), Key("conditions")];
        forall i | 0 <= i < |v.items| ensures Quiet(l, v.items[i], at + [Key(k)] + [Index(i)]) {
          RowQuiet(l, v.items[i], i);
          assert at + [Key(k)] + [Index(i)] == [Key("filters"), Key("conditions"), Index(i)];
        }
      } else {
        UncallingIsQuiet(l, v, at + [Key(k)]);
      }
    }
  }

  /** A write that is let through calls nothing outside its slots and its markers. */
  lemma LetThroughIsQuiet(l: Library, parameters: map<string, Json>, key: string)
    requires LetThrough(l, parameters) && key in parameters
    ensures Quiet(l, parameters[key], [Key(key)])
  {
    hide CallsFromAI, Quiet, FirstColumn, FirstFilter, FirstExpression;
    var keys := Order.Sorted(parameters.Keys);
    assert key in keys && KeyRefused(l, key, parameters[key]).None?;
    if key == "columns" && PlainMap(parameters[key]) {
      ColumnsQuiet(l, parameters[key]);
    } else if key == "filters" && PlainMap(parameters[key]) {
      FiltersQuiet(l, parameters[key]);
    } else {
      UncallingIsQuiet(l, parameters[key], [Key(key)]);
    }
  }
}
