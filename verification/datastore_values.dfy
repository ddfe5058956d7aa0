/**
 What the model's arguments become in a write of the data table tool
 (nodes/datastore.go): which of them cross, what the slots of a run hold, and
 what the structure around them can be.
 */
module DatastoreValues {
  import opened Wrappers
  import opened JsonValues
  import opened DatastoreRule
  import opened DatastoreTool
  import opened DatastoreWrite
  import opened Decimals
  import Order

  // ----- The structure an author may write ------------------------------------

  /** The slots: the two names a write skips, a mapped column's value, and what a condition compares with. */
  lemma SlotIff(q: Path)
    ensures Slot(q) <==>
      || q == [Key("toolName")] || q == [Key("toolDescription")]
      || (exists column: string :: q == [Key("columns"), Key("value"), Key(column)])
      || exists row: nat :: q == [Key("filters"), Key("conditions"), Index(row), Key("keyValue")]
  {
    NamesApart();
    if Slot(q) {
      assert q == [q[0]] + q[1..];
      if q[0].name == "columns" {
        assert q == [Key("columns"), Key("value"), Key(q[2].name)];
      } else if q[0].name == "filters" {
        assert q == [Key("filters"), Key("conditions"), Index(q[2].index), Key("keyValue")];
      }
    }
    forall column: string | q == [Key("columns"), Key("value"), Key(column)] ensures Slot(q) {
      assert q[1..] == [Key("value"), Key(column)];
    }
    forall row: nat | q == [Key("filters"), Key("conditions"), Index(row), Key("keyValue")] ensures Slot(q) {
      assert q[1..] == [Key("conditions"), Index(row), Key("keyValue")];
    }
  }

  lemma NamesApart()
    ensures "columns" !in SKIPPED && "filters" !in SKIPPED && "columns" != "filters"
    ensures forall name :: name in SKIPPED <==> name == "toolName" || name == "toolDescription"
  {
    assert "columns"[0] == 'c' && "filters"[0] == 'f' && "toolName"[0] == "toolDescription"[0] == 't';
  }

  lemma {:induction false} PlainAt(l: Library, j: Json, at: Path, q: Path)
    requires Plain(l, j, at) && At(j, q).Some? && forall n: nat :: n <= |q| ==> !Slot(at + q[..n])
    ensures var u := At(j, q).value; !Marked(u) && (u.Str? ==> !StringCalls(l, u.text))
    decreases |q|
  {
    hide Slot, StringCalls, Marked;
    assert at + q[..0] == at;
    if q != [] {
      var child := Step(j, q[0]).value;
      forall n: nat | n <= |q| - 1 ensures !Slot(at + [q[0]] + q[1..][..n]) {
        assert at + q[..n + 1] == at + [q[0]] + q[1..][..n];
      }
      PlainAt(l, child, at + [q[0]], q[1..]);
    }
  }

  /**
   A write that is accepted holds no expression and no call anywhere but in
   its slots, unless a marker is directly under an empty name.
   */
  lemma StructureIsLiteral(l: Library, parameters: map<string, Json>, q: Path)
    requires Accepted(l, parameters) && NamesAWrite(l, parameters) && !UnnamedMarker(parameters)
    requires q != [] && !UnderSlot(q) && At(Obj(parameters), q).Some?
    ensures var u := At(Obj(parameters), q).value;
      && !(u.Obj? && "mode" in u.fields && u.fields["mode"] == Str("expression"))
      && (u.Str? ==> Scan(l, u.text) == Some([]))
  {
    hide Slot, Accepted, NamesAWrite, UnnamedMarker, CallsFromAI, Plain;
    AcceptedIsLiteralIff(l, parameters);
    var key := q[0].name;
    forall n: nat | n <= |q| - 1 ensures !Slot([Key(key)] + q[1..][..n]) {
      assert [Key(key)] + q[1..][..n] == q[..n + 1];
    }
    PlainAt(l, parameters[key], [Key(key)], q[1..]);
  }

  // ----- Which part a refusal names -------------------------------------------

  lemma PathStep(at: Path, s: Segment, path: Path)
    requires at != [] && path == at + [s]
    ensures PathText(path) == PathText(at) + SegmentText(s)
  {
    assert path[..|path| - 1] == at;
  }

  /** How places are written. */
  lemma PathsAreWritten(column: string, field: string)
    ensures PathText([Key(field)]) == field
    ensures PathText([Key("columns"), Key(field)]) == "columns." + field
    ensures PathText([Key("columns"), Key("value"), Key(column)]) == "columns.value." + column
    ensures PathText([Key("filters"), Key(field)]) == "filters." + field
  {
    TopPath(field, Null);
    TopPath("columns", Null);
    TopPath("filters", Null);
    hide PathText;
    PathStep([Key("columns")], Key(field), [Key("columns"), Key(field)]);
    PathStep([Key("columns")], Key("value"), [Key("columns"), Key("value")]);
    PathStep([Key("columns"), Key("value")], Key(column), [Key("columns"), Key("value"), Key(column)]);
    PathStep([Key("filters")], Key(field), [Key("filters"), Key(field)]);
  }

  lemma RowsAreWritten(row: nat, field: string)
    ensures PathText([Key("filters"), Key("conditions"), Index(row)]) == "filters.conditions[" + Decimal(row) + "]"
    ensures PathText([Key("filters"), Key("conditions"), Index(row), Key(field)]) ==
      "filters.conditions[" + Decimal(row) + "]." + field
  {
    hide *;
    PathsAreWritten("", "conditions");
    var top, at := [Key("filters"), Key("conditions")], [Key("filters"), Key("conditions"), Index(row)];
    var below := [Key("filters"), Key("conditions"), Index(row), Key(field)];
    PathStep(top, Index(row), at);
    PathStep(at, Key(field), below);
    SegmentTexts(row, field);
    Glued(Decimal(row), field);
    assert PathText(top) == "filters.conditions" by { Dotted(); }
  }

  lemma Dotted()
    ensures "filters." + "conditions" == "filters.conditions"
  {
  }

  lemma SegmentTexts(row: nat, field: string)
    ensures SegmentText(Index(row)) == "[" + Decimal(row) + "]" && SegmentText(Key(field)) == "." + field
  {
  }

  lemma Glued(row: string, field: string)
    ensures "filters.conditions" + ("[" + row + "]") == "filters.conditions[" + row + "]"
    ensures "filters.conditions[" + row + "]" + ("." + field) == "filters.conditions[" + row + "]." + field
  {
  }

  /** A part that calls $fromAI where no value is, and its name. */
  predicate Calls(l: Library, j: Json, q: Path, named: string) {
    && At(j, q).Some? && CallsFromAI(l, At(j, q).value) && PathText(q) == named
    && (Slot(q) ==> q == [Key("toolName")] || q == [Key("toolDescription")])
  }

  lemma {:induction false} SlotNamed(l: Library, row: map<string, Json>, keys: seq<string>, index: nat)
    returns (field: string)
    requires (forall k :: 0 <= k < |keys| ==> keys[k] in row) && FirstSlot(l, row, keys, index).Some?
    ensures field in row && field != "keyValue" && CallsFromAI(l, row[field])
    ensures FirstSlot(l, row, keys, index) == Some("filters.conditions[" + Decimal(index) + "]." + field)
    decreases |keys|
  {
    hide CallsFromAI;
    if keys[0] != "keyValue" && CallsFromAI(l, row[keys[0]]) {
      field := keys[0];
      assert "filters.conditions[" + Decimal(index) + "]" + "." == "filters.conditions[" + Decimal(index) + "].";
    } else {
      field := SlotNamed(l, row, keys[1..], index);
    }
  }

  lemma RowIsNoSlot(row: nat, field: string)
    ensures !Slot([Key("filters"), Key("conditions"), Index(row)])
    ensures field != "keyValue" ==> !Slot([Key("filters"), Key("conditions"), Index(row), Key(field)])
  {
    NamesApart();
    assert [Key("filters"), Key("conditions"), Index(row)][1..] == [Key("conditions"), Index(row)];
    assert [Key("filters"), Key("conditions"), Index(row), Key(field)][1..] ==
      [Key("conditions"), Index(row), Key(field)];
  }

  lemma RowNamed(l: Library, rows: seq<Json>, index: nat, parameters: Json) returns (q: Path)
    requires index < |rows| && RowRefused(l, rows[index], index).Some?
    requires At(parameters, [Key("filters"), Key("conditions"), Index(index)]) == Some(rows[index])
    ensures Calls(l, parameters, q, RowRefused(l, rows[index], index).value)
  {
    hide CallsFromAI, PathText, At, IsExpression, Slot, Decimal, FirstSlot;
    q := [Key("filters"), Key("conditions"), Index(index)];
    var entry := rows[index];
    if PlainMap(entry) {
      var field := SlotNamed(l, entry.fields, Order.Sorted(entry.fields.Keys), index);
      RowsAreWritten(index, field);
      RowIsNoSlot(index, field);
      OneBelow(parameters, q, Key(field));
      q := [Key("filters"), Key("conditions"), Index(index), Key(field)];
      assert [Key("filters"), Key("conditions"), Index(index)] + [Key(field)] == q;
    } else {
      RowsAreWritten(index, "");
      RowIsNoSlot(index, "");
    }
  }

  lemma {:induction false} OneBelow(j: Json, q: Path, s: Segment)
    requires At(j, q).Some?
    ensures At(j, q + [s]) == Step(At(j, q).value, s)
    decreases |q|
  {
    if q == [] {
      assert (q + [s])[1..] == [];
    } else {
      assert (q + [s])[1..] == q[1..] + [s];
      OneBelow(Step(j, q[0]).value, q[1..], s);
    }
  }

  lemma {:induction false} FirstRowNamed(l: Library, rows: seq<Json>, from: nat) returns (index: nat)
    requires from <= |rows| && FirstRow(l, rows, from).Some?
    ensures index < |rows| && FirstRow(l, rows, from) == RowRefused(l, rows[index], index)
    decreases |rows| - from
  {
    hide RowRefused;
    if RowRefused(l, rows[from], from).Some? {
      index := from;
    } else {
      index := FirstRowNamed(l, rows, from + 1);
    }
  }

  lemma {:induction false} FilterNamed(l: Library, filters: map<string, Json>, keys: seq<string>)
    returns (field: string)
    requires (forall k :: 0 <= k < |keys| ==> keys[k] in filters) && FirstFilter(l, filters, keys).Some?
    ensures field in filters && FirstFilter(l, filters, keys) == FilterRefused(l, field, filters[field])
    decreases |keys|
  {
    hide FilterRefused;
    if FilterRefused(l, keys[0], filters[keys[0]]).Some? {
      field := keys[0];
    } else {
      field := FilterNamed(l, filters, keys[1..]);
    }
  }

  lemma {:induction false} ColumnNamed(l: Library, columns: map<string, Json>, keys: seq<string>)
    returns (field: string)
    requires (forall k :: 0 <= k < |keys| ==> keys[k] in columns) && FirstColumn(l, columns, keys).Some?
    ensures field in columns && CallsFromAI(l, columns[field])
    ensures FirstColumn(l, columns, keys) == Some("columns." + field)
    decreases |keys|
  {
    hide CallsFromAI;
    if ColumnRefused(l, keys[0], columns[keys[0]]) {
      field := keys[0];
    } else {
      field := ColumnNamed(l, columns, keys[1..]);
    }
  }

  lemma {:induction false} KeyNamed(l: Library, parameters: map<string, Json>, keys: seq<string>)
    returns (key: string)
    requires (forall k :: 0 <= k < |keys| ==> keys[k] in parameters) && FirstRefused(l, parameters, keys).Some?
    ensures key in parameters && FirstRefused(l, parameters, keys) == KeyRefused(l, key, parameters[key])
    decreases |keys|
  {
    hide KeyRefused;
    if KeyRefused(l, keys[0], parameters[keys[0]]).Some? {
      key := keys[0];
    } else {
      key := KeyNamed(l, parameters, keys[1..]);
    }
  }

  /** The part a refused write is told about calls $fromAI where it must not, and goes by its own name. */
  lemma RefusedPartCalls(l: Library, parameters: map<string, Json>) returns (q: Path)
    requires FirstRefused(l, parameters, Order.Sorted(parameters.Keys)).Some?
    ensures Calls(l, Obj(parameters), q, FirstRefused(l, parameters, Order.Sorted(parameters.Keys)).value)
  {
    hide CallsFromAI, PathText, RowRefused, FirstRow, FirstFilter, FirstColumn, FirstRefused, IsExpression, At, Slot;
    var key := KeyNamed(l, parameters, Order.Sorted(parameters.Keys));
    var value := parameters[key];
    q := [Key(key)];
    TopAt(parameters, key);
    PathsAreWritten("", key);
    SlotIff(q);
    if key == "columns" && PlainMap(value) {
      var field := ColumnNamed(l, value.fields, Order.Sorted(value.fields.Keys));
      PathsAreWritten("", field);
      OneBelow(Obj(parameters), q, Key(field));
      q := [Key("columns"), Key(field)];
      assert [Key(key)] + [Key(field)] == q;
      SlotIff(q);
    } else if key == "filters" && PlainMap(value) {
      q := FilterCalls(l, parameters);
    }
  }

  lemma TopAt(parameters: map<string, Json>, key: string)
    requires key in parameters
    ensures At(Obj(parameters), [Key(key)]) == Some(parameters[key])
  {
    OneBelow(Obj(parameters), [], Key(key));
    assert [] + [Key(key)] == [Key(key)];
  }

  lemma FilterCalls(l: Library, parameters: map<string, Json>) returns (q: Path)
    requires "filters" in parameters && PlainMap(parameters["filters"])
    requires KeyRefused(l, "filters", parameters["filters"]).Some?
    ensures Calls(l, Obj(parameters), q, KeyRefused(l, "filters", parameters["filters"]).value)
  {
    hide CallsFromAI, PathText, RowRefused, FirstRow, FirstFilter, FirstColumn, IsExpression, At, Slot;
    assert "filters"[0] != "columns"[0];
    var filters := parameters["filters"].fields;
    var field := FilterNamed(l, filters, Order.Sorted(filters.Keys));
    PathsAreWritten("", field);
    TopAt(parameters, "filters");
    OneBelow(Obj(parameters), [Key("filters")], Key(field));
    q := [Key("filters"), Key(field)];
    assert [Key("filters")] + [Key(field)] == q;
    SlotIff(q);
    if field == "conditions" && filters[field].Arr? {
      var rows := filters[field].items;
      var index := FirstRowNamed(l, rows, 0);
      OneBelow(Obj(parameters), q, Index(index));
      assert q + [Index(index)] == [Key("filters"), Key("conditions"), Index(index)];
      q := RowNamed(l, rows, index, Obj(parameters));
    }
  }

  /** A place that calls $fromAI: a text, or a body of an expression, in which a scan fails or finds a call. */
  predicate CallsAt(l: Library, j: Json, q: Path) {
    if q != [] then !IsExpression(j) && Step(j, q[0]).Some? && CallsAt(l, Step(j, q[0]).value, q[1..])
    else if IsExpression(j) then
      var bodies := Bodies(l, j.fields["value"].text);
      bodies.Some? && exists k :: 0 <= k < |bodies.value| && Scan(l, bodies.value[k]) != Some([])
    else j.Str? && Scan(l, j.text) != Some([])
  }

  /** A subtree calls exactly when some place in it does, whatever maps and lists lead there. */
  lemma CallsIff(l: Library, j: Json)
    ensures CallsFromAI(l, j) <==> exists q: Path :: CallsAt(l, j, q)
  {
    if CallsFromAI(l, j) {
      var q := CallIn(l, j);
    }
    forall q: Path | CallsAt(l, j, q) ensures CallsFromAI(l, j) {
      CallHeld(l, j, q);
    }
  }

  lemma {:induction false} CallIn(l: Library, j: Json) returns (q: Path)
    requires CallsFromAI(l, j)
    ensures CallsAt(l, j, q)
    decreases j
  {
    hide IsExpression;
    q := [];
    if !IsExpression(j) {
      if j.Obj? {
        var k :| k in j.fields && CallsFromAI(l, j.fields[k]);
        q := CallIn(l, j.fields[k]);
        q := [Key(k)] + q;
      } else if j.Arr? {
        var k :| 0 <= k < |j.items| && CallsFromAI(l, j.items[k]);
        q := CallIn(l, j.items[k]);
        q := [Index(k)] + q;
      }
    }
  }

  lemma {:induction false} CallHeld(l: Library, j: Json, q: Path)
    requires CallsAt(l, j, q)
    ensures CallsFromAI(l, j)
    decreases |q|
  {
    hide IsExpression;
    if q != [] {
      CallHeld(l, Step(j, q[0]).value, q[1..]);
    }
  }

  /** What has parts that may call $fromAI: a map that is not an expression. */
  predicate Parted(j: Json) { j.Obj? && !IsExpression(j) }

  /**
   What a write that is let through calls $fromAI in: in no parameter as a
   whole, and of the parts of columns and filters only in the mapped values and in
   what conditions compare with.
   */
  lemma LetThroughCallsNothing(l: Library, parameters: map<string, Json>, key: string, field: string)
    requires LetThrough(l, parameters) && key in parameters
    ensures (key != "columns" && key != "filters") || !Parted(parameters[key]) ==> !CallsFromAI(l, parameters[key])
    ensures key == "columns" && Parted(parameters[key]) && field in parameters[key].fields ==>
      var part := parameters[key].fields[field];
      field != "value" || !Parted(part) ==> !CallsFromAI(l, part)
    ensures key == "filters" && Parted(parameters[key]) && field in parameters[key].fields ==>
      var part := parameters[key].fields[field];
      if field != "conditions" || !part.Arr? then !CallsFromAI(l, part)
      else forall i :: 0 <= i < |part.items| ==> ConditionCalls(l, part.items[i])
  {
    hide CallsFromAI, FirstColumn, FirstFilter, IsExpression, FirstExpression, RowRefused, FirstRow;
    var value := parameters[key];
    assert key in Order.Sorted(parameters.Keys) && KeyRefused(l, key, value).None?;
    if Parted(value) && field in value.fields && (key == "columns" || key == "filters") {
      assert field in Order.Sorted(value.fields.Keys);
      if key == "columns" {
        assert !ColumnRefused(l, field, value.fields[field]);
      } else {
        assert "filters"[0] != "columns"[0];
        assert FilterRefused(l, field, value.fields[field]).None?;
        if field == "conditions" && value.fields[field].Arr? {
          RowsCall(l, value.fields[field].items);
        }
      }
    }
  }

  predicate ConditionCalls(l: Library, row: Json) {
    if !Parted(row) then !CallsFromAI(l, row)
    else forall slot <- row.fields :: slot != "keyValue" ==> !CallsFromAI(l, row.fields[slot])
  }

  lemma RowsCall(l: Library, rows: seq<Json>)
    requires FirstRow(l, rows, 0).None?
    ensures forall i :: 0 <= i < |rows| ==> ConditionCalls(l, rows[i])
  {
    hide CallsFromAI, IsExpression, RowPath;
    forall i | 0 <= i < |rows| ensures ConditionCalls(l, rows[i]) {
      assert RowRefused(l, rows[i], i).None?;
      if Parted(rows[i]) {
        assert forall slot <- rows[i].fields :: slot in Order.Sorted(rows[i].fields.Keys);
      }
    }
  }

  // ----- Which arguments cross ------------------------------------------------

  lemma {:induction false} HoldsMarkerIff(j: Json)
    ensures HoldsMarker(j) <==> exists q: Path :: At(j, q).Some? && Marked(At(j, q).value)
    decreases j
  {
    hide Marked;
    if HoldsMarker(j) {
      var q := MarkerIn(j);
    }
    forall q: Path | At(j, q).Some? && Marked(At(j, q).value) ensures HoldsMarker(j) {
      MarkerHeld(j, q);
    }
  }

  lemma {:induction false} MarkerIn(j: Json) returns (q: Path)
    requires HoldsMarker(j)
    ensures At(j, q).Some? && Marked(At(j, q).value)
    decreases j
  {
    hide Marked;
    if Marked(j) {
      q := [];
    } else if j.Obj? {
      var k :| k in j.fields && HoldsMarker(j.fields[k]);
      q := MarkerIn(j.fields[k]);
      q := [Key(k)] + q;
    } else {
      var k :| 0 <= k < |j.items| && HoldsMarker(j.items[k]);
      q := MarkerIn(j.items[k]);
      q := [Index(k)] + q;
    }
  }

  lemma {:induction false} MarkerHeld(j: Json, q: Path)
    requires At(j, q).Some? && Marked(At(j, q).value)
    ensures HoldsMarker(j)
    decreases |q|
  {
    hide Marked;
    if q != [] {
      MarkerHeld(Step(j, q[0]).value, q[1..]);
    }
  }

  /** An argument of another type than its call's is refused, and as JSON one that holds an expression anywhere. */
  predicate Unfit(kind: string, v: Json) {
    || (kind == "string" && !v.Str?)
    || (kind == "number" && !v.Num?)
    || (kind == "boolean" && !v.Bool?)
    || (kind == "json" && HoldsMarker(v))
  }

  lemma UnfitIff(call: Call, v: Json)
    ensures CheckArgument(call, v) <==> !Unfit(call.kind, v)
  {
    assert |"string"| == |"number"| == 6 && |"boolean"| == 7 && |"json"| == 4 && "string"[0] != "number"[0];
  }

  /** A run is refused for its arguments exactly when one that is declared and supplied is unfit for its call. */
  lemma {:induction false} ArgumentsRefusedIff(calls: seq<Call>, supplied: map<string, Json>, n: nat)
    requires n <= |calls|
    ensures Arguments(calls, supplied, n).None? <==>
      exists i :: 0 <= i < n && calls[i].key in supplied && supplied[calls[i].key] != Null
        && Unfit(calls[i].kind, supplied[calls[i].key])
    decreases n
  {
    hide CheckArgument, Unfit;
    if n > 0 {
      ArgumentsRefusedIff(calls, supplied, n - 1);
      var call := calls[n - 1];
      if call.key in supplied {
        UnfitIff(call, supplied[call.key]);
      }
    }
  }

  /** A declared argument that is supplied crosses as it is; another one crosses when a call has a default for it. */
  lemma {:induction false} DeclaredCross(calls: seq<Call>, supplied: map<string, Json>, n: nat, i: nat)
    requires i < n <= |calls| && Arguments(calls, supplied, n).Some?
    ensures var crossed := Arguments(calls, supplied, n).value; var key := calls[i].key;
      && (key in supplied && supplied[key] != Null ==> key in crossed && crossed[key] == supplied[key])
      && (calls[i].fallback.Some? ==> key in crossed)
    decreases n
  {
    hide CheckArgument;
    if i < n - 1 {
      DeclaredCross(calls, supplied, n - 1, i);
    }
  }

  /** An expression reads the crossed arguments, and as its item those of them that columns declares. */
  lemma EnvHolds(l: Library, tool: Tool, x: map<string, Json>, key: string)
    requires RunParameters(l, tool, x).Some?
    ensures var env := EnvOf(l, tool, x);
            var columns := if "columns" in tool.parameters then tool.parameters["columns"] else Null;
            var calls := Declared(l, Obj(map["columns" := columns]));
      && Declared(l, Obj(tool.parameters)).Some?
      && (key in env.item <==>
        && key in env.arguments && calls.Some?
        && exists i :: 0 <= i < |calls.value| && calls.value[i].key == key)
      && (key in env.item ==> env.item[key] == env.arguments[key])
  {
    hide Fill, CheckFilled, ResolveAll, Pinned, Arguments;
  }

  // ----- What a place holds in a run ------------------------------------------

  lemma {:induction false} MarkerlessStays(l: Library, j: Json, e: Env)
    requires !HoldsMarker(j)
    ensures Resolve(l, j, e) == Some(j)
    decreases j
  {
    if j.Obj? {
      forall k | k in j.fields ensures Resolve(l, j.fields[k], e) == Some(j.fields[k]) {
        MarkerlessStays(l, j.fields[k], e);
      }
      var r := Resolve(l, j, e);
      assert r.Some? && r.value.Obj?;
      assert r.value.fields == j.fields;
    } else if j.Arr? {
      forall k | 0 <= k < |j.items| ensures Resolve(l, j.items[k], e) == Some(j.items[k]) {
        MarkerlessStays(l, j.items[k], e);
      }
      assert Resolve(l, j, e).value.items == j.items;
    }
  }

  /** Reached through maps and lists the author wrote as such. */
  predicate Open(j: Json, q: Path) {
    q != [] ==> !Marked(j) && Step(j, q[0]).Some? && Open(Step(j, q[0]).value, q[1..])
  }

  lemma {:induction false} OpenIsThere(j: Json, q: Path)
    requires Open(j, q)
    ensures At(j, q).Some?
    decreases |q|
  {
    if q != [] {
      OpenIsThere(Step(j, q[0]).value, q[1..]);
    }
  }

  /** A run treats each place the author's maps and lists lead to by itself. */
  lemma {:induction false} RunsAt(l: Library, j: Json, q: Path, x: map<string, Json>, e: Env)
    requires Runs(l, j, x, e) && Open(j, q) && At(j, q).Some?
    ensures var u := At(j, q).value;
      Runs(l, u, x, e) && At(Resolve(l, Fill(l, j, x).value, e).value, q) == Resolve(l, Fill(l, u, x).value, e)
    decreases |q|
  {
    hide Fill, Resolve, CheckFilled, Marked;
    if q != [] {
      if j.Obj? {
        MapRuns(l, j, x, e);
      } else {
        ListRuns(l, j, x, e);
      }
      RunsAt(l, Step(j, q[0]).value, q[1..], x, e);
    }
  }

  /**
   What a text becomes in a run: itself if it calls nothing, the argument as
   supplied if it is one call, and otherwise the text with the arguments put
   in. An expression is evaluated, as its author wrote it.
   */
  ghost predicate Becomes(l: Library, u: Json, env: Env, v: Option<Json>) {
    var x := env.arguments;
    var m := if u.Obj? then u.fields else map[];
    && ("mode" in m && m["mode"] == Str("expression") && "value" in m && m["value"].Str? ==>
      v == Evaluate(l, m["value"].text, env))
    && (u.Str? ==>
      && Scan(l, u.text).Some?
      && var calls := Scan(l, u.text).value;
         && (calls == [] ==> v == Some(u))
         && (|calls| == 1 && Bare(l, u.text) ==>
           v == if calls[0].key in x && x[calls[0].key] != Null then Some(x[calls[0].key]) else calls[0].fallback)
         && (calls != [] && !(|calls| == 1 && Bare(l, u.text)) ==>
           Render(l, u.text, x).Some? && v == Some(Str(Render(l, u.text, x).value))))
    && (u.Null? || u.Bool? || u.Num? ==> v == Some(u))
  }

  lemma LeafBecomes(l: Library, u: Json, env: Env)
    requires Runs(l, u, env.arguments, env)
    ensures Becomes(l, u, env, Resolve(l, Fill(l, u, env.arguments).value, env))
  {
    if u.Str? {
      MarkerlessStays(l, Fill(l, u, env.arguments).value, env);
    }
  }

  /** Every place of a run that the author's maps and lists lead to holds what its text becomes. */
  lemma PlaceBecomes(l: Library, tool: Tool, x: map<string, Json>, key: string, q: Path)
    requires RunParameters(l, tool, x).Some? && !IsExpression(Obj(tool.parameters))
    requires key in tool.parameters && key !in {"resource", "operation", "dataTableId"} && Open(tool.parameters[key], q)
    ensures var u := At(tool.parameters[key], q);
      u.Some? && Becomes(l, u.value, EnvOf(l, tool, x), At(Obj(RunParameters(l, tool, x).value), [Key(key)] + q))
  {
    hide Fill, Resolve, CheckFilled, Becomes, IsExpression, RunParameters, EnvOf;
    var env := EnvOf(l, tool, x);
    OpenIsThere(tool.parameters[key], q);
    RunsByKey(l, tool, x, key);
    RunsAt(l, tool.parameters[key], q, env.arguments, env);
    LeafBecomes(l, At(tool.parameters[key], q).value, env);
    assert ([Key(key)] + q)[1..] == q;
  }

  /** The model's value, whatever it is, is what a slot left to it holds. */
  lemma SlotGetsArgument(l: Library, tool: Tool, x: map<string, Json>, key: string, q: Path, text: string, call: Call)
    requires RunParameters(l, tool, x).Some? && !IsExpression(Obj(tool.parameters))
    requires key in tool.parameters && key !in {"resource", "operation", "dataTableId"} && Open(tool.parameters[key], q)
    requires At(tool.parameters[key], q) == Some(Str(text)) && Scan(l, text) == Some([call]) && Bare(l, text)
    requires var calls := Declared(l, Obj(tool.parameters));
      calls.Some? && exists i :: 0 <= i < |calls.value| && calls.value[i].key == call.key
    requires call.key in x && x[call.key] != Null
    ensures At(Obj(RunParameters(l, tool, x).value), [Key(key)] + q) == Some(x[call.key])
  {
    hide IsExpression, Open, ResolveAll, Fill, CheckFilled;
    var calls := Declared(l, Obj(tool.parameters)).value;
    var i :| 0 <= i < |calls| && calls[i].key == call.key;
    DeclaredCross(calls, x, |calls|, i);
    PlaceBecomes(l, tool, x, key, q);
  }
}
