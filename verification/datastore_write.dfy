/**
 Saving and running a write of the data table tool (nodes/datastore.go): what
 a save accepts, what a run resolves, and where two runs with different
 arguments may differ.
 */
module DatastoreWrite {
  import opened Wrappers
  import opened JsonValues
  import opened DatastoreRule
  import opened DatastoreTool
  import Order

  // ----- What a save accepts ------------------------------------------------

  const GET := "get"
  const INSERT := "insert"
  const UPDATE := "update"
  const UPSERT := "upsert"
  const DELETE := "delete"
  const OPERATIONS := {GET, INSERT, UPDATE, UPSERT, DELETE}
  const ROW := "row"

  function TextValue(l: Library, parameters: map<string, Json>, key: string, fallback: string): string {
    if key !in parameters || parameters[key] in {Null, Str("")} then fallback
    else if parameters[key].Str? then parameters[key].text
    else TextOf(l, parameters[key])
  }

  function Parameter(parameters: map<string, Json>, key: string): Json {
    if key in parameters then parameters[key] else Null
  }

  /** The columns mapped by hand, when that is the mapping's mode. */
  predicate MapsByHand(columns: Json) {
    && columns.Obj? && "mode" in columns.fields && columns.fields["mode"] == Str("defineBelow")
    && "value" in columns.fields && columns.fields["value"].Obj?
    && exists k <- columns.fields["value"].fields :: columns.fields["value"].fields[k] !in {Null, Str("")}
  }

  /** The columns are mapped by hand, or hold a readable $fromAI call. */
  predicate WritesValues(l: Library, parameters: map<string, Json>) {
    || MapsByHand(Parameter(parameters, "columns"))
    || var calls := Declared(l, Obj(map["columns" := Parameter(parameters, "columns")]));
       calls.Some? && calls.value != []
  }

  /** The operation a tool stands for: the one it names, but get for an insert without WritesValues. */
  function ToolOperation(l: Library, parameters: map<string, Json>): string {
    var operation := Trim(l, TextValue(l, parameters, "operation", GET));
    if operation == INSERT && !WritesValues(l, parameters) then GET else operation
  }

  ghost predicate Accepted(l: Library, parameters: map<string, Json>) {
    var operation := ToolOperation(l, parameters);
    && TextValue(l, parameters, "resource", ROW) == ROW
    && Trim(l, TextValue(l, parameters, "operation", GET)) in OPERATIONS
    && (operation in {UPDATE, UPSERT} ==> WritesValues(l, parameters))
    && (operation != GET ==>
      && LetThrough(l, parameters) && Declared(l, Obj(parameters)).Some? && Consistent(l, Obj(parameters)))
    && StepRules(l, Obj(parameters["resource" := Str(ROW)]["operation" := Str(operation)]))
  }

  /**
   The structure place a refused write is told about: the first marker
   outside the slots, or if there is none or its text is empty the first call.
   */
  ghost function RefusedPlace(l: Library, parameters: map<string, Json>): Option<string> {
    var operation := ToolOperation(l, parameters);
    if TextValue(l, parameters, "resource", ROW) != ROW ||
      Trim(l, TextValue(l, parameters, "operation", GET)) !in OPERATIONS
      || operation == GET || (operation in {UPDATE, UPSERT} && !WritesValues(l, parameters)) then None
    else if FirstExpression(parameters) != "" then Some(FirstExpression(parameters))
    else FirstRefused(l, parameters, Order.Sorted(parameters.Keys))
  }

  /** Decides Accepted, and for a refusal about structure says which place it is about. */
  method CheckOperation(l: Library, parameters: map<string, Json>) returns (accepted: bool, named: Option<string>)
    ensures accepted <==> Accepted(l, parameters)
    ensures named == RefusedPlace(l, parameters)
  {
    hide CallsFromAI, WritesValues, FirstExpression, FirstRefused, TextValue;
    named := None;
    if TextValue(l, parameters, "resource", ROW) != ROW {
      return false, None;
    }
    var stored := Trim(l, TextValue(l, parameters, "operation", GET));
    if stored !in OPERATIONS {
      return false, None;
    }
    var operation := ToolOperation(l, parameters);
    if (operation == UPDATE || operation == UPSERT) && !WritesValues(l, parameters) {
      return false, None;
    }
    if operation != GET {
      var path := StructureExpression(parameters);
      if path != "" {
        return false, Some(path);
      }
      var refused := RefuseStructureFromAI(l, parameters);
      if refused.Some? {
        return false, refused;
      }
      if Declared(l, Obj(parameters)).None? || !Consistent(l, Obj(parameters)) {
        return false, None;
      }
    }
    accepted := StepRules(l, Obj(parameters["resource" := Str(ROW)]["operation" := Str(operation)]));
  }

  // ----- What the parameters name ---------------------------------------------

  /** The operation the parameters name, less the space around it; nothing, null and empty text name get. */
  predicate NamesOperation(l: Library, parameters: map<string, Json>, name: string) {
    var named := if "operation" in parameters then parameters["operation"] else Null;
    if named == Null || named == Str("") then Trim(l, "get") == name
    else if named.Str? then Trim(l, named.text) == name
    else Trim(l, TextOf(l, named)) == name
  }

  /** Some column is mapped by hand to something, or columns declares a call that can be read. */
  predicate HasValues(l: Library, parameters: map<string, Json>) {
    var columns := if "columns" in parameters then parameters["columns"] else Null;
    var calls := Declared(l, Obj(map["columns" := columns]));
    || (calls.Some? && |calls.value| > 0)
    || (columns.Obj? && "mode" in columns.fields && columns.fields["mode"] == Str("defineBelow") &&
      "value" in columns.fields && columns.fields["value"].Obj? &&
      exists c :: c in columns.fields["value"].fields && columns.fields["value"].fields[c] != Null
        && columns.fields["value"].fields[c] != Str(""))
  }

  predicate NamesAWrite(l: Library, parameters: map<string, Json>) {
    || NamesOperation(l, parameters, "update")
    || NamesOperation(l, parameters, "upsert")
    || NamesOperation(l, parameters, "delete")
    || (NamesOperation(l, parameters, "insert") && HasValues(l, parameters))
  }

  predicate NamesRows(l: Library, parameters: map<string, Json>) {
    "resource" !in parameters || parameters["resource"] in {Null, Str(""), Str("row")} ||
      (!parameters["resource"].Str? && TextOf(l, parameters["resource"]) == "row")
  }

  lemma OperationNamed(l: Library, parameters: map<string, Json>, name: string)
    ensures NamesOperation(l, parameters, name) <==> Trim(l, TextValue(l, parameters, "operation", GET)) == name
  {
  }

  lemma OperationsDiffer()
    ensures |GET| == 3 && |INSERT| == |UPDATE| == |UPSERT| == |DELETE| == 6
    ensures INSERT[0] == 'i' && UPDATE[1] == UPSERT[1] == 'p' && DELETE[0] == 'd' && UPDATE[2] != UPSERT[2]
  {
  }

  lemma ValuesIff(l: Library, parameters: map<string, Json>)
    ensures WritesValues(l, parameters) <==> HasValues(l, parameters)
  {
    var columns := Parameter(parameters, "columns");
    if MapsByHand(columns) {
      var c :| c in columns.fields["value"].fields && columns.fields["value"].fields[c] !in {Null, Str("")};
      assert columns.fields["value"].fields[c] != Null && columns.fields["value"].fields[c] != Str("");
    }
  }

  /**
   What a save accepts: rows alone, one of five operations, something to write
   for an update or an upsert, and for a write no structure but literal one; then the
   rules of the step for the operation, where an insert with nothing to write
   stands for a get.
   */
  lemma AcceptedIff(l: Library, parameters: map<string, Json>, name: string)
    requires NamesOperation(l, parameters, name)
    ensures Accepted(l, parameters) <==>
      && NamesRows(l, parameters)
      && name in {"get", "insert", "update", "upsert", "delete"}
      && (name == "update" || name == "upsert" ==> HasValues(l, parameters))
      && (NamesAWrite(l, parameters) ==>
        LetThrough(l, parameters) && Declared(l, Obj(parameters)).Some? && Consistent(l, Obj(parameters)))
      && StepRules(l, Obj(parameters["resource" := Str("row")]["operation" :=
        Str(if name == "insert" && !HasValues(l, parameters) then "get" else name)]))
  {
    hide LetThrough, WritesValues, HasValues, NamesOperation;
    ValuesIff(l, parameters);
    OperationNamed(l, parameters, name);
    OperationNamed(l, parameters, "update");
    OperationNamed(l, parameters, "upsert");
    OperationNamed(l, parameters, "delete");
    OperationNamed(l, parameters, "insert");
    OperationsDiffer();
  }

  /**
   A tool that names a write is one: it performs the operation it names, and it
   is let through if it is accepted. Any other accepted tool gets rows.
   */
  lemma WritesAreGuarded(l: Library, parameters: map<string, Json>)
    ensures var operation := ToolOperation(l, parameters);
      && (NamesAWrite(l, parameters) ==> operation != "get" && NamesOperation(l, parameters, operation))
      && (NamesAWrite(l, parameters) && Accepted(l, parameters) ==> LetThrough(l, parameters))
      && (!NamesAWrite(l, parameters) && Accepted(l, parameters) ==> operation == "get")
  {
    hide LetThrough, WritesValues, HasValues, NamesOperation, StepRules;
    ValuesIff(l, parameters);
    OperationNamed(l, parameters, ToolOperation(l, parameters));
    OperationNamed(l, parameters, "update");
    OperationNamed(l, parameters, "upsert");
    OperationNamed(l, parameters, "delete");
    OperationNamed(l, parameters, "insert");
    OperationsDiffer();
  }

  // ----- What a run resolves --------------------------------------------------

  /** The argument has the kind of its call, and as JSON holds no marker. */
  predicate CheckArgument(call: Call, value: Json) {
    if call.kind == "string" then value.Str?
    else if call.kind == "number" then value.Num?
    else if call.kind == "boolean" then value.Bool?
    else call.kind == "json" ==> !HoldsMarker(value)
  }

  /** The checked arguments of the first n declared calls, or none when one is refused. */
  function Arguments(calls: seq<Call>, supplied: map<string, Json>, n: nat): Option<map<string, Json>>
    requires n <= |calls|
  {
    if n == 0 then Some(map[]) else
    var before := Arguments(calls, supplied, n - 1);
    var call := calls[n - 1];
    if before.None? then None
    else if call.key in supplied && supplied[call.key] != Null then
      if CheckArgument(call, supplied[call.key]) then Some(before.value[call.key := supplied[call.key]]) else None
    else if call.fallback.Some? then Some(before.value[call.key := call.fallback.value])
    else before
  }

  /** Only declared keys cross, each with the value supplied for it, checked, or with its call's own default. */
  lemma {:induction false} OnlyDeclaredCross(calls: seq<Call>, supplied: map<string, Json>, n: nat, key: string)
    returns (i: nat)
    requires n <= |calls| && Arguments(calls, supplied, n).Some? && key in Arguments(calls, supplied, n).value
    ensures i < n && calls[i].key == key
    ensures var value := Arguments(calls, supplied, n).value[key];
      if key in supplied && supplied[key] != Null then value == supplied[key] && CheckArgument(calls[i], value)
      else calls[i].fallback == Some(value)
    decreases n
  {
    hide CheckArgument;
    var call := calls[n - 1];
    if call.key == key && ((key in supplied && supplied[key] != Null) || call.fallback.Some?) {
      i := n - 1;
    } else {
      i := OnlyDeclaredCross(calls, supplied, n - 1, key);
    }
  }

  /** The arguments whose keys these calls declare. */
  function ItemOf(calls: seq<Call>, arguments: map<string, Json>): map<string, Json> {
    map k | k in arguments && (exists i :: 0 <= i < |calls| && calls[i].key == k) :: arguments[k]
  }

  function Pinned(fields: map<string, Json>, operation: string, table: string): map<string, Json> {
    fields["resource" := Str(ROW)]["operation" := Str(operation)]["dataTableId" := Locator(table)]
  }

  function Locator(table: string): Json {
    Obj(map["__rl" := Bool(true), "mode" := Str("id"), "value" := Str(table)])
  }

  function ResolveAll(l: Library, fields: map<string, Json>, env: Env): Option<map<string, Json>> {
    if exists k <- fields :: Resolve(l, fields[k], env).None? then None
    else Some(map k <- fields :: Resolve(l, fields[k], env).value)
  }

  datatype Tool = Tool(parameters: map<string, Json>, operation: string, table: string)

  /** The parameters one invocation runs with. */
  function RunParameters(l: Library, tool: Tool, supplied: map<string, Json>): Option<map<string, Json>> {
    var calls := Declared(l, Obj(tool.parameters));
    if calls.None? then None else
    var arguments := Arguments(calls.value, supplied, |calls.value|);
    if arguments.None? then None else
    var filled := Fill(l, Obj(tool.parameters), arguments.value);
    if filled.None? || !filled.value.Obj? || !CheckFilled(Obj(tool.parameters), filled.value) then None else
    var columnCalls := Declared(l, Obj(map["columns" := Parameter(tool.parameters, "columns")]));
    var item := if columnCalls.None? then map[] else ItemOf(columnCalls.value, arguments.value);
    ResolveAll(l, Pinned(filled.value.fields, tool.operation, tool.table), Env(arguments.value, item))
  }

  /** Answers the parameters a run ends up with, or none when it is refused. */
  method InvokeWrite(l: Library, tool: Tool, supplied: map<string, Json>) returns (r: Option<map<string, Json>>)
    ensures r == RunParameters(l, tool, supplied)
  {
    hide Fill, CheckFilled, ResolveAll, Pinned, CheckArgument;
    var calls := Declared(l, Obj(tool.parameters));
    if calls.None? {
      return None;
    }
    var fromAI: map<string, Json> := map[];
    for k := 0 to |calls.value|
      invariant Arguments(calls.value, supplied, k) == Some(fromAI)
    {
      var call := calls.value[k];
      if call.key in supplied && supplied[call.key] != Null {
        if !CheckArgument(call, supplied[call.key]) {
          RefusalStays(calls.value, supplied, k + 1, |calls.value|);
          return None;
        }
        fromAI := fromAI[call.key := supplied[call.key]];
        continue;
      }
      if call.fallback.Some? {
        fromAI := fromAI[call.key := call.fallback.value];
      }
    }
    var filled := Fill(l, Obj(tool.parameters), fromAI);
    if filled.None? || !filled.value.Obj? || !CheckFilled(Obj(tool.parameters), filled.value) {
      return None;
    }
    var columnCalls := Declared(l, Obj(map["columns" := Parameter(tool.parameters, "columns")]));
    var item: map<string, Json> := map[];
    if columnCalls.Some? {
      for k := 0 to |columnCalls.value|
        invariant item == ItemOf(columnCalls.value[..k], fromAI)
      {
        if columnCalls.value[k].key in fromAI {
          item := item[columnCalls.value[k].key := fromAI[columnCalls.value[k].key]];
        }
        MoreItem(columnCalls.value, fromAI, k);
      }
      assert columnCalls.value[..|columnCalls.value|] == columnCalls.value;
    }
    r := ResolveAll(l, Pinned(filled.value.fields, tool.operation, tool.table), Env(fromAI, item));
  }

  lemma {:induction false} RefusalStays(calls: seq<Call>, supplied: map<string, Json>, k: nat, n: nat)
    requires k <= n <= |calls| && Arguments(calls, supplied, k).None?
    ensures Arguments(calls, supplied, n).None?
    decreases n
  {
    if k < n {
      RefusalStays(calls, supplied, k, n - 1);
    }
  }

  lemma MoreItem(calls: seq<Call>, arguments: map<string, Json>, k: nat)
    requires k < |calls|
    ensures ItemOf(calls[..k + 1], arguments) ==
      if calls[k].key in arguments then ItemOf(calls[..k], arguments)[calls[k].key := arguments[calls[k].key]]
      else ItemOf(calls[..k], arguments)
  {
    var all, before := calls[..k + 1], calls[..k];
    assert all[k] == calls[k] && forall i :: 0 <= i < k ==> all[i] == before[i];
    forall key | key in ItemOf(before, arguments) ensures key in ItemOf(all, arguments) {
      var i :| 0 <= i < |before| && before[i].key == key;
      assert all[i].key == key;
    }
  }

  // ----- Building the tool -----------------------------------------------------

  /** What the agent checks of a tool: its parameters over the table it is bound to. */
  function Checked(tool: Tool): map<string, Json> { tool.parameters["dataTableId" := Locator(tool.table)] }

  /** A tool the agent builds. */
  ghost predicate Built(l: Library, tool: Tool) {
    Accepted(l, Checked(tool)) && ToolOperation(l, Checked(tool)) == tool.operation
  }

  lemma PerformsListed(l: Library, tool: Tool)
    requires tool.operation !in OPERATIONS
    ensures !Built(l, tool)
  {
    hide LetThrough, WritesValues;
  }

  /**
   Building the tool for the agent, which checks it again: over the table it
   is bound to, and for the operation its descriptor claims.
   */
  method BuildTool(l: Library, parameters: map<string, Json>, operation: string, table: string)
    returns (tool: Option<Tool>)
    ensures tool.Some? ==> tool.value == Tool(parameters, if operation == "" then "get" else operation, table)
    ensures tool.Some? <==> Built(l, Tool(parameters, if operation == "" then "get" else operation, table))
  {
    hide ToolOperation, Accepted, RefusedPlace, WritesValues;
    var claimed := if operation == "" then GET else operation;
    if claimed !in OPERATIONS {
      PerformsListed(l, Tool(parameters, claimed, table));
      return None;
    }
    var made := Tool(parameters, claimed, table);
    var accepted, _ := CheckOperation(l, Checked(made));
    tool := if accepted && ToolOperation(l, Checked(made)) == claimed then Some(made) else None;
  }

  lemma CheckedNamesTheSame(l: Library, tool: Tool)
    ensures NamesAWrite(l, Checked(tool)) <==> NamesAWrite(l, tool.parameters)
    ensures forall name :: NamesOperation(l, Checked(tool), name) <==> NamesOperation(l, tool.parameters, name)
  {
    var p, q := tool.parameters, Checked(tool);
    assert "dataTableId"[0] == 'd' && "operation"[0] == 'o' && "columns"[0] == 'c';
    assert forall key :: key in {"operation", "columns"} ==>
      (key in p <==> key in q) && (key in p ==> p[key] == q[key]);
  }

  /** A write runs on rows, on the table it is bound to, and under the operation its author named. */
  lemma RunsUnderItsName(l: Library, tool: Tool, x: map<string, Json>)
    requires Built(l, tool) && NamesAWrite(l, tool.parameters) && RunParameters(l, tool, x).Some?
    ensures var r := RunParameters(l, tool, x).value;
      && tool.operation != "get" && NamesOperation(l, tool.parameters, tool.operation)
      && r.Keys == tool.parameters.Keys + {"resource", "operation", "dataTableId"}
      && r["resource"] == Str("row") && r["operation"] == Str(tool.operation)
      && r["dataTableId"] == Obj(map["__rl" := Bool(true), "mode" := Str("id"), "value" := Str(tool.table)])
  {
    hide NamesAWrite, NamesOperation, Accepted, RunParameters, ToolOperation;
    CheckedNamesTheSame(l, tool);
    WritesAreGuarded(l, Checked(tool));
    RunsByKey(l, tool, x, "resource");
  }

  // ----- Two runs agree outside the slots -------------------------------------

  /** Two trees of the template t's shape that are the same except at and below its slots and markers. */
  predicate Agree(t: Json, at: Path, a: Json, b: Json) {
    Slot(at) || Marked(t) || (
      match t
      case Obj(m) =>
        && a.Obj? && b.Obj? && a.fields.Keys == b.fields.Keys == m.Keys
        && forall k <- m :: Agree(m[k], at + [Key(k)], a.fields[k], b.fields[k])
      case Arr(s) =>
        && a.Arr? && b.Arr? && |a.items| == |b.items| == |s|
        && forall k :: 0 <= k < |s| ==> Agree(s[k], at + [Index(k)], a.items[k], b.items[k])
      case _ => a == b)
  }

  /** A quiet tree, filled and resolved twice with whatever arguments, agrees outside its slots and markers. */
  lemma {:induction false} QuietRunsAgree(l: Library, j: Json, at: Path, x: map<string, Json>, y: map<string, Json>,
                                          e: Env, f: Env)
    requires Quiet(l, j, at)
    requires Fill(l, j, x).Some? && CheckFilled(j, Fill(l, j, x).value) && Resolve(l, Fill(l, j, x).value, e).Some?
    requires Fill(l, j, y).Some? && CheckFilled(j, Fill(l, j, y).value) && Resolve(l, Fill(l, j, y).value, f).Some?
    ensures Agree(j, at, Resolve(l, Fill(l, j, x).value, e).value, Resolve(l, Fill(l, j, y).value, f).value)
    decreases j
  {
    hide Slot, Fill, Resolve, CheckFilled, StringCalls;
    if Slot(at) || Marked(j) {
    } else if j.Obj? {
      MapRuns(l, j, x, e);
      MapRuns(l, j, y, f);
      forall k | k in j.fields
        ensures Agree(j.fields[k], at + [Key(k)], Resolve(l, Fill(l, j, x).value, e).value.fields[k],
          Resolve(l, Fill(l, j, y).value, f).value.fields[k])
      {
        QuietRunsAgree(l, j.fields[k], at + [Key(k)], x, y, e, f);
      }
    } else if j.Arr? {
      ListRuns(l, j, x, e);
      ListRuns(l, j, y, f);
      forall k | 0 <= k < |j.items|
        ensures Agree(j.items[k], at + [Index(k)], Resolve(l, Fill(l, j, x).value, e).value.items[k],
          Resolve(l, Fill(l, j, y).value, f).value.items[k])
      {
        QuietRunsAgree(l, j.items[k], at + [Index(k)], x, y, e, f);
      }
    } else {
      ScalarRuns(l, j, x, e);
      ScalarRuns(l, j, y, f);
    }
  }

  predicate Runs(l: Library, j: Json, x: map<string, Json>, e: Env) {
    Fill(l, j, x).Some? && CheckFilled(j, Fill(l, j, x).value) && Resolve(l, Fill(l, j, x).value, e).Some?
  }

  /** An unmarked map runs field by field: the check keeps filling from turning it into an expression. */
  lemma MapRuns(l: Library, j: Json, x: map<string, Json>, e: Env)
    requires j.Obj? && !Marked(j) && Runs(l, j, x, e)
    ensures var r := Resolve(l, Fill(l, j, x).value, e).value;
      && r.Obj? && r.fields.Keys == j.fields.Keys
      && forall k <- j.fields ::
        Runs(l, j.fields[k], x, e) && r.fields[k] == Resolve(l, Fill(l, j.fields[k], x).value, e).value
  {
    var filled := Fill(l, j, x).value;
    assert filled.Obj? && filled.fields.Keys == j.fields.Keys && !IsExpression(filled);
    forall k | k in j.fields
      ensures Runs(l, j.fields[k], x, e)
      ensures Resolve(l, filled, e).value.fields[k] == Resolve(l, Fill(l, j.fields[k], x).value, e).value
    {
      assert Fill(l, j.fields[k], x).Some? && filled.fields[k] == Fill(l, j.fields[k], x).value;
      assert Resolve(l, filled.fields[k], e).Some?;
    }
  }

  lemma ListRuns(l: Library, j: Json, x: map<string, Json>, e: Env)
    requires j.Arr? && Runs(l, j, x, e)
    ensures var r := Resolve(l, Fill(l, j, x).value, e).value;
      && r.Arr? && |r.items| == |j.items|
      && forall k :: 0 <= k < |j.items| ==>
        Runs(l, j.items[k], x, e) && r.items[k] == Resolve(l, Fill(l, j.items[k], x).value, e).value
  {
    var filled := Fill(l, j, x).value;
    forall k | 0 <= k < |j.items|
      ensures Runs(l, j.items[k], x, e)
      ensures Resolve(l, filled, e).value.items[k] == Resolve(l, Fill(l, j.items[k], x).value, e).value
    {
      assert Fill(l, j.items[k], x).Some? && filled.items[k] == Fill(l, j.items[k], x).value;
      assert Resolve(l, filled.items[k], e).Some?;
    }
  }

  lemma ScalarRuns(l: Library, j: Json, x: map<string, Json>, e: Env)
    requires !j.Obj? && !j.Arr? && (j.Str? ==> !StringCalls(l, j.text))
    ensures Fill(l, j, x) == Some(j) && Resolve(l, j, e) == Some(j)
  {
  }

  /** Agreement read off at every place that is neither in a slot nor in an outermost marker. */
  lemma {:induction false} AgreeAt(t: Json, at: Path, a: Json, b: Json, q: Path)
    requires Agree(t, at, a, b) && forall n: nat :: n <= |q| ==> !Slot(at + q[..n]) && !Outermost(t, at, q[..n])
    ensures ShapeAt(a, q) == ShapeAt(b, q)
    decreases |q|
  {
    hide Slot, Marked;
    assert q[..0] == [] && at + [] == at;
    assert !Slot(at) && !Outermost(t, at, []);
    if q != [] && Step(t, q[0]).Some? {
      var child := Step(t, q[0]).value;
      forall n: nat | n <= |q| - 1
        ensures !Slot(at + [q[0]] + q[1..][..n]) && !Outermost(child, at + [q[0]], q[1..][..n])
      {
        assert at + q[..n + 1] == at + [q[0]] + q[1..][..n];
        assert q[..n + 1][0] == q[0] && q[..n + 1][1..] == q[1..][..n];
        assert !Outermost(t, at, q[..n + 1]);
      }
      assert Agree(child, at + [q[0]], Step(a, q[0]).value, Step(b, q[0]).value);
      AgreeAt(child, at + [q[0]], Step(a, q[0]).value, Step(b, q[0]).value, q[1..]);
    }
  }

  /** A quiet tree resolved without being filled agrees as well. */
  lemma {:induction false} UnfilledRunsAgree(l: Library, j: Json, at: Path, e: Env, f: Env)
    requires Quiet(l, j, at) && Resolve(l, j, e).Some? && Resolve(l, j, f).Some?
    ensures Agree(j, at, Resolve(l, j, e).value, Resolve(l, j, f).value)
    decreases j
  {
    hide Slot, StringCalls;
    if !Slot(at) && !Marked(j) {
      if j.Obj? {
        forall k | k in j.fields
          ensures Agree(j.fields[k], at + [Key(k)], Resolve(l, j, e).value.fields[k], Resolve(l, j, f).value.fields[k])
        {
          UnfilledRunsAgree(l, j.fields[k], at + [Key(k)], e, f);
        }
      } else if j.Arr? {
        forall k | 0 <= k < |j.items|
          ensures Agree(j.items[k], at + [Index(k)], Resolve(l, j, e).value.items[k], Resolve(l, j, f).value.items[k])
        {
          UnfilledRunsAgree(l, j.items[k], at + [Index(k)], e, f);
        }
      }
    }
  }

  const PINNED := {"resource", "operation", "dataTableId"}

  /** The arguments and the item one run evaluates against. */
  function EnvOf(l: Library, tool: Tool, x: map<string, Json>): Env
    requires RunParameters(l, tool, x).Some?
  {
    hide Fill, CheckFilled, ResolveAll, Pinned, ItemOf;
    var calls := Declared(l, Obj(tool.parameters)).value;
    var arguments := Arguments(calls, x, |calls|).value;
    var columnCalls := Declared(l, Obj(map["columns" := Parameter(tool.parameters, "columns")]));
    Env(arguments, if columnCalls.None? then map[] else ItemOf(columnCalls.value, arguments))
  }

  lemma ResolveAllAt(l: Library, fields: map<string, Json>, env: Env)
    requires ResolveAll(l, fields, env).Some?
    ensures ResolveAll(l, fields, env).value.Keys == fields.Keys
    ensures forall k <- fields :: Resolve(l, fields[k], env) == Some(ResolveAll(l, fields, env).value[k])
  {
    hide Resolve;
  }

  lemma LocatorResolves(l: Library, table: string, env: Env)
    ensures Resolve(l, Locator(table), env) == Some(Locator(table))
  {
    var j := Locator(table);
    assert j.fields["mode"] == Str("id");
    assert |"id"| != |"expression"|;
    ScalarsResolve(l, j.fields, env);
  }

  lemma ScalarsResolve(l: Library, m: map<string, Json>, env: Env)
    requires !Marked(Obj(m)) && forall k <- m :: !m[k].Obj? && !m[k].Arr?
    ensures Resolve(l, Obj(m), env) == Some(Obj(m))
  {
    forall k | k in m ensures Resolve(l, m[k], env) == Some(m[k]) {
    }
    var r := Resolve(l, Obj(m), env);
    assert r.Some? && r.value.Obj?;
    assert r.value.fields == m;
  }

  /** Filling goes parameter by parameter, unless the parameters themselves read as an expression. */
  lemma FilledByKey(l: Library, fields: map<string, Json>, x: map<string, Json>)
    requires Fill(l, Obj(fields), x).Some? && Fill(l, Obj(fields), x).value.Obj?
    requires CheckFilled(Obj(fields), Fill(l, Obj(fields), x).value)
    ensures var filled := Fill(l, Obj(fields), x).value.fields;
      && filled.Keys == fields.Keys
      && forall k <- fields ::
        if IsExpression(Obj(fields)) then filled[k] == fields[k]
        else Fill(l, fields[k], x) == Some(filled[k]) && CheckFilled(fields[k], filled[k])
  {
  }

  /** A run treats each parameter by itself, apart from the three it pins. */
  lemma RunsByKey(l: Library, tool: Tool, x: map<string, Json>, key: string)
    requires RunParameters(l, tool, x).Some?
    ensures var r := RunParameters(l, tool, x).value; var env := EnvOf(l, tool, x); var p := tool.parameters;
      && r.Keys == p.Keys + PINNED
      && r["resource"] == Str(ROW) && r["operation"] == Str(tool.operation) && r["dataTableId"] == Locator(tool.table)
      && (key in p && key !in PINNED ==>
        if IsExpression(Obj(p)) then Resolve(l, p[key], env) == Some(r[key])
        else
          && Runs(l, p[key], env.arguments, env)
          && r[key] == Resolve(l, Fill(l, p[key], env.arguments).value, env).value)
  {
    hide Fill, CheckFilled, ResolveAll, Arguments, Locator, IsExpression, Parameter, ItemOf, Resolve;
    var env := EnvOf(l, tool, x);
    var filled := Fill(l, Obj(tool.parameters), env.arguments).value.fields;
    FilledByKey(l, tool.parameters, env.arguments);
    var pinned := Pinned(filled, tool.operation, tool.table);
    assert RunParameters(l, tool, x) == ResolveAll(l, pinned, env);
    assert pinned.Keys == filled.Keys + PINNED;
    ResolveAllAt(l, pinned, env);
    LocatorResolves(l, tool.table, env);
    TextResolves(l, ROW, env);
    TextResolves(l, tool.operation, env);
  }

  lemma TextResolves(l: Library, s: string, env: Env)
    ensures Resolve(l, Str(s), env) == Some(Str(s))
  {
  }

  lemma ParametersAgree(l: Library, tool: Tool, x: map<string, Json>, y: map<string, Json>, key: string)
    requires LetThrough(l, Checked(tool)) && key in tool.parameters.Keys + PINNED
    requires RunParameters(l, tool, x).Some? && RunParameters(l, tool, y).Some?
    ensures var a, b := RunParameters(l, tool, x).value, RunParameters(l, tool, y).value;
      && a.Keys == b.Keys == tool.parameters.Keys + PINNED
      && if key in PINNED then a[key] == b[key] else Agree(tool.parameters[key], [Key(key)], a[key], b[key])
  {
    hide Quiet, Fill, Resolve, CheckFilled, Agree, RunParameters, EnvOf, CallsFromAI, Locator, IsExpression, LetThrough;
    RunsByKey(l, tool, x, key);
    RunsByKey(l, tool, y, key);
    var e, f := EnvOf(l, tool, x), EnvOf(l, tool, y);
    if key !in PINNED {
      LetThroughIsQuiet(l, Checked(tool), key);
      if IsExpression(Obj(tool.parameters)) {
        UnfilledRunsAgree(l, tool.parameters[key], [Key(key)], e, f);
      } else {
        QuietRunsAgree(l, tool.parameters[key], [Key(key)], e.arguments, f.arguments, e, f);
      }
    }
  }

  /** At or below a marker that the walk lists. */
  ghost predicate UnderMarker(parameters: map<string, Json>, q: Path) {
    exists n: nat :: n <= |q| && q[..n] in StructureMarkers(parameters)
  }

  /**
   Any two runs of a write the agent has built have the same content everywhere
   but in the value slots, under the two names a write skips, and in the
   markers that the walk lists.
   */
  lemma RunsAgree(l: Library, tool: Tool, x: map<string, Json>, y: map<string, Json>, q: Path)
    requires Built(l, tool) && NamesAWrite(l, tool.parameters)
    requires RunParameters(l, tool, x).Some? && RunParameters(l, tool, y).Some?
    requires !UnderSlot(q) && !UnderMarker(Checked(tool), q)
    ensures ShapeAt(Obj(RunParameters(l, tool, x).value), q) == ShapeAt(Obj(RunParameters(l, tool, y).value), q)
  {
    hide LetThrough, Slot, StepRules, WritesValues, ToolOperation, Agree, RunParameters, Consistent, Outermost,
         StructureMarkers, NamesAWrite, NamesOperation, Accepted;
    CheckedNamesTheSame(l, tool);
    WritesAreGuarded(l, Checked(tool));
    var a, b := RunParameters(l, tool, x).value, RunParameters(l, tool, y).value;
    ParametersAgree(l, tool, x, y, "resource");
    if q != [] && q[0].Key? && q[0].name in a {
      var key := q[0].name;
      ParametersAgree(l, tool, x, y, key);
      if key !in PINNED {
        forall n: nat | n <= |q| - 1
          ensures !Slot([Key(key)] + q[1..][..n]) && !Outermost(tool.parameters[key], [Key(key)], q[1..][..n])
        {
          assert [Key(key)] + q[1..][..n] == q[..n + 1];
          assert q[..n + 1] !in StructureMarkers(Checked(tool));
          StructureMarkersExact(Checked(tool), q[..n + 1]);
          assert q[..n + 1][1..] == q[1..][..n] && q[..n + 1][0] == q[0];
        }
        AgreeAt(tool.parameters[key], [Key(key)], a[key], b[key], q[1..]);
      }
    }
  }

  /**
   The model supplies only values: unless a marker is directly under an empty
   parameter name, any two runs of a write the agent has built have the same
   content everywhere but in the value slots and under the two names a write
   skips.
   */
  lemma ModelSuppliesOnlyValues(l: Library, tool: Tool, x: map<string, Json>, y: map<string, Json>, q: Path)
    requires Built(l, tool) && NamesAWrite(l, tool.parameters) && !UnnamedMarker(tool.parameters)
    requires RunParameters(l, tool, x).Some? && RunParameters(l, tool, y).Some? && !UnderSlot(q)
    ensures ShapeAt(Obj(RunParameters(l, tool, x).value), q) == ShapeAt(Obj(RunParameters(l, tool, y).value), q)
  {
    hide LetThrough, UnderSlot, ToolOperation, RunParameters, UnnamedMarker, StructureMarkers, WritesValues,
         NamesAWrite, NamesOperation, Accepted;
    CheckedNamesTheSame(l, tool);
    WritesAreGuarded(l, Checked(tool));
    UnnamedAlike(tool);
    LetThroughIsLiteralIff(l, Checked(tool));
    RunsAgree(l, tool, x, y, q);
  }

  lemma UnnamedAlike(tool: Tool)
    ensures UnnamedMarker(Checked(tool)) <==> UnnamedMarker(tool.parameters)
  {
    assert |"dataTableId"| != 0;
  }

  /** A write that is accepted has a literal structure exactly when no marker is directly under an empty name. */
  lemma AcceptedIsLiteralIff(l: Library, parameters: map<string, Json>)
    requires Accepted(l, parameters) && NamesAWrite(l, parameters)
    ensures Literal(l, parameters) <==> !UnnamedMarker(parameters)
  {
    hide LetThrough, Literal, ToolOperation, UnnamedMarker, WritesValues, Accepted, NamesAWrite, NamesOperation;
    WritesAreGuarded(l, parameters);
    LetThroughIsLiteralIff(l, parameters);
  }

  /** A write with another marker outside the slots is refused, and the refusal names the first such place. */
  lemma MarkersAreRefused(l: Library, parameters: map<string, Json>)
    requires NamesAWrite(l, parameters) && FirstExpression(parameters) != ""
    ensures !Accepted(l, parameters)
    ensures NamesRows(l, parameters) && (NamesOperation(l, parameters, "delete") || HasValues(l, parameters)) ==>
      RefusedPlace(l, parameters) == Some(FirstExpression(parameters))
  {
    hide WritesValues, FirstExpression, FirstRefused, HasValues, NamesOperation;
    ValuesIff(l, parameters);
    WritesAreGuarded(l, parameters);
    OperationNamed(l, parameters, ToolOperation(l, parameters));
    OperationNamed(l, parameters, "update");
    OperationNamed(l, parameters, "upsert");
    OperationNamed(l, parameters, "delete");
    OperationNamed(l, parameters, "insert");
    OperationsDiffer();
  }

  /**
   Why filling is checked: two mapped columns called mode and value, both left
   to the model, are slots, yet filled with the right texts the map around
   them would become an expression. The check refuses exactly that run.
   */
  lemma MappingTurnedExpressionIsRefused(l: Library, j: Json, x: map<string, Json>, template: string)
    requires j.Obj? && "mode" in j.fields && "value" in j.fields && j.fields["mode"].Str? && j.fields["value"].Str?
    requires !Marked(j) && Fill(l, j, x).Some?
    requires FillString(l, j.fields["mode"].text, x) == Some(Str("expression"))
    requires FillString(l, j.fields["value"].text, x) == Some(Str(template))
    ensures IsExpression(Fill(l, j, x).value) && !CheckFilled(j, Fill(l, j, x).value)
  {
    hide FillString;
    var filled := Fill(l, j, x).value;
    assert filled.Obj? && filled.fields.Keys == j.fields.Keys;
    assert filled.fields["mode"] == Fill(l, j.fields["mode"], x).value;
    assert filled.fields["value"] == Fill(l, j.fields["value"], x).value;
  }
}
