/**
 A write of the data table tool (nodes/datastore.go) that is accepted although
 its structure is not literal: two runs of it differ in a parameter that says
 how the conditions combine.
 */
module DatastoreWitness {
  import opened Wrappers
  import opened JsonValues
  import opened DatastoreRule
  import opened DatastoreTool
  import opened DatastoreWrite

  const CALL := "$fromAI('match')"
  const TEMPLATE := "{{ $json.match }}"
  const BODY := "$json.match"
  const ABOUT := "deletes rows"
  const TABLE := "t"
  const LITERALS := ["expression", "defineBelow", "id", "eq", "7", DELETE, ABOUT, TABLE]

  function MatchCall(): Call { Call("match", "string", None) }

  /** Says that it is an expression, and has no template. */
  function NoTemplate(): Json { Obj(map["mode" := Str("expression")]) }

  function MatchExpression(): Json { Obj(map["mode" := Str("expression"), "value" := Str(TEMPLATE)]) }

  function Mapping(text: string): Json {
    Obj(map["mode" := Str("defineBelow"), "value" := Obj(map["match" := Str(text)])])
  }

  function OneCondition(): Json {
    Obj(map["conditions" := Arr([ConditionRow()])])
  }

  function ConditionRow(): Json {
    Obj(map["keyName" := Str("id"), "condition" := Str("eq"), "keyValue" := Str("7")])
  }

  /**
   A delete with a marker under the empty name; with the mapped column as its
   call it is the tool's own parameters.
   */
  function Delete(text: string): map<string, Json> {
    map["toolDescription" := Str(ABOUT), "dataTableId" := Locator(TABLE), "operation" := Str(DELETE),
      "" := NoTemplate(), "match" := MatchExpression(), "columns" := Mapping(text), "filters" := OneCondition()]
  }

  function Supplied(text: string): map<string, Json> { map["match" := Str(text)] }

  /**
   What the parts outside the node make of these parameters: one call, no
   other, and a template that reads the item.
   */
  ghost predicate Knows(l: Library) {
    && Trim(l, DELETE) == DELETE
    && Scan(l, CALL) == Some([MatchCall()]) && Bare(l, CALL) && (forall s :: s != CALL ==> Scan(l, s) == Some([]))
    && Bodies(l, TEMPLATE) == Some([BODY])
    && Declared(l, Obj(Delete(CALL))) == Some([MatchCall()])
    && Declared(l, Obj(map["columns" := Mapping(CALL)])) == Some([MatchCall()])
    && Consistent(l, Obj(Delete(CALL)))
    && StepRules(l, Obj(Delete(CALL)["resource" := Str(ROW)]["operation" := Str(DELETE)]))
    && forall e: Env :: "match" in e.item ==> Evaluate(l, TEMPLATE, e) == Some(e.item["match"])
  }

  // ----- Trees that neither call nor evaluate anything -------------------------

  predicate Inert(l: Library, j: Json) {
    !IsExpression(j) && match j
      case Str(s) => Scan(l, s) == Some([])
      case Obj(m) => forall k <- m :: Inert(l, m[k])
      case Arr(s) => forall k :: 0 <= k < |s| ==> Inert(l, s[k])
      case _ => true
  }

  lemma {:induction false} InertStays(l: Library, j: Json, x: map<string, Json>, e: Env)
    requires Inert(l, j)
    ensures Fill(l, j, x) == Some(j) && Resolve(l, j, e) == Some(j) && CheckFilled(j, j) && !CallsFromAI(l, j)
    decreases j
  {
    if j.Obj? {
      forall k | k in j.fields
        ensures Fill(l, j.fields[k], x) == Some(j.fields[k]) && Resolve(l, j.fields[k], e) == Some(j.fields[k])
        ensures CheckFilled(j.fields[k], j.fields[k]) && !CallsFromAI(l, j.fields[k])
      {
        InertStays(l, j.fields[k], x, e);
      }
      FillMap(l, j.fields, j.fields, x);
      ResolveMap(l, j.fields, j.fields, e);
    } else if j.Arr? {
      forall k | 0 <= k < |j.items|
        ensures Fill(l, j.items[k], x) == Some(j.items[k]) && Resolve(l, j.items[k], e) == Some(j.items[k])
        ensures CheckFilled(j.items[k], j.items[k]) && !CallsFromAI(l, j.items[k])
      {
        InertStays(l, j.items[k], x, e);
      }
      ListStays(l, j, x, e);
    }
  }

  lemma ListStays(l: Library, j: Json, x: map<string, Json>, e: Env)
    requires j.Arr?
    requires forall k :: 0 <= k < |j.items| ==>
      Fill(l, j.items[k], x) == Some(j.items[k]) && Resolve(l, j.items[k], e) == Some(j.items[k])
    ensures Fill(l, j, x) == Some(j) && Resolve(l, j, e) == Some(j)
  {
    assert Fill(l, j, x).value.items == j.items;
    assert Resolve(l, j, e).value.items == j.items;
  }

  lemma FillMap(l: Library, m: map<string, Json>, filled: map<string, Json>, x: map<string, Json>)
    requires !IsExpression(Obj(m)) && filled.Keys == m.Keys && forall k <- m :: Fill(l, m[k], x) == Some(filled[k])
    ensures Fill(l, Obj(m), x) == Some(Obj(filled))
  {
    var r := Fill(l, Obj(m), x);
    assert r.Some? && r.value.Obj?;
    assert r.value.fields == filled;
  }

  lemma ResolveMap(l: Library, m: map<string, Json>, resolved: map<string, Json>, e: Env)
    requires !IsExpression(Obj(m)) && resolved.Keys == m.Keys &&
      forall k <- m :: Resolve(l, m[k], e) == Some(resolved[k])
    ensures Resolve(l, Obj(m), e) == Some(Obj(resolved))
  {
    var r := Resolve(l, Obj(m), e);
    assert r.Some? && r.value.Obj?;
    assert r.value.fields == resolved;
  }

  // ----- The parts of this write ------------------------------------------------

  lemma NamesApart()
    ensures "mode" != "value" && "mode" != "match" && "conditions" != "mode" && "keyName" != "mode"
    ensures "condition" != "mode" && "keyValue" != "mode"
    ensures "defineBelow" != "expression" && "delete" != "insert" && "delete" != "update" && "delete" != "upsert"
    ensures "delete" != "get"
    ensures "columns" != "filters" && "columns" != "match" && "filters" != "match" && "operation" != "match"
    ensures forall k <- ["operation", "match", "columns", "filters", "toolDescription", "dataTableId"] ::
      k != "" && k != "mode" && k != "resource"
    ensures forall k <- ["", "match", "columns", "filters"] :: k !in PINNED && k !in SKIPPED
  {
    assert "defineBelow"[0] != "expression"[0] && "delete"[0] != "insert"[0] && "delete"[0] != "update"[0];
    assert "delete"[0] != "upsert"[0] && "columns"[0] != "filters"[0] && "mode"[0] != "value"[0];
    assert "keyValue"[0] != "mode"[0] && "keyName"[0] != "mode"[0] && "match"[1] != "mode"[1];
    assert |"columns"| == 7 && |"filters"| == 7 && |"match"| == 5 && |"operation"| == 9 && |"mode"| == 4;
  }

  lemma TextIsInert(l: Library, text: string)
    requires Knows(l) && text != CALL
    ensures Inert(l, Str(text))
  {
  }

  lemma TextsAreInert(l: Library)
    requires Knows(l)
    ensures forall s <- LITERALS :: Inert(l, Str(s))
  {
    hide Knows, Inert;
    assert |CALL| == 16;
    forall s | s in LITERALS ensures Inert(l, Str(s)) {
      assert |s| < 16;
      TextIsInert(l, s);
    }
  }

  lemma MapIsInert(l: Library, m: map<string, Json>)
    requires !IsExpression(Obj(m)) && forall k <- m :: Inert(l, m[k])
    ensures Inert(l, Obj(m))
  {
  }

  lemma MappingIsInert(l: Library, text: string)
    requires Knows(l) && text != CALL
    ensures Inert(l, Mapping(text))
  {
    hide Knows, Inert;
    NamesApart();
    TextsAreInert(l);
    TextIsInert(l, text);
    MapIsInert(l, map["match" := Str(text)]);
    MapIsInert(l, Mapping(text).fields);
  }

  lemma RowIsInert(l: Library)
    requires Knows(l)
    ensures Inert(l, ConditionRow())
  {
    hide Knows, Inert;
    NamesApart();
    TextsAreInert(l);
    MapIsInert(l, ConditionRow().fields);
  }

  lemma ConditionIsInert(l: Library)
    requires Knows(l)
    ensures Inert(l, OneCondition())
  {
    hide Knows, ConditionRow;
    NamesApart();
    RowIsInert(l);
    var rows := Arr([ConditionRow()]);
    assert Inert(l, rows);
    MapIsInert(l, OneCondition().fields);
  }

  lemma LocatorIsInert(l: Library)
    requires Knows(l)
    ensures Inert(l, Locator(TABLE))
  {
    hide Knows;
    NamesApart();
    TextsAreInert(l);
    assert "id" in LITERALS && TABLE in LITERALS;
    assert |"id"| != |"expression"|;
    MapIsInert(l, Locator(TABLE).fields);
  }

  lemma NoTemplateIsInert(l: Library)
    requires Knows(l)
    ensures Inert(l, NoTemplate())
  {
    hide Knows, Inert;
    NamesApart();
    TextsAreInert(l);
    MapIsInert(l, NoTemplate().fields);
  }

  lemma PartsAreInert(l: Library, text: string)
    requires Knows(l) && text != CALL
    ensures Inert(l, NoTemplate()) && Inert(l, OneCondition()) && Inert(l, Mapping(text)) && Inert(l, Str(DELETE))
    ensures Inert(l, Str(ABOUT)) && Inert(l, Locator(TABLE))
  {
    hide Knows, Inert, Mapping, OneCondition, NoTemplate, Locator;
    TextsAreInert(l);
    assert DELETE in LITERALS && ABOUT in LITERALS;
    LocatorIsInert(l);
    NoTemplateIsInert(l);
    ConditionIsInert(l);
    MappingIsInert(l, text);
  }

  lemma CallFills(l: Library, text: string)
    requires Knows(l)
    ensures Fill(l, Str(CALL), Supplied(text)) == Some(Str(text)) && CheckFilled(Str(CALL), Str(text))
  {
  }

  lemma MappingIsPlain(text: string)
    ensures !Marked(Mapping(text)) && !Marked(Obj(map["match" := Str(text)]))
    ensures !IsExpression(Mapping(text)) && !IsExpression(Obj(map["match" := Str(text)]))
  {
    NamesApart();
  }

  lemma MappingFills(l: Library, text: string)
    requires Knows(l)
    ensures Fill(l, Mapping(CALL), Supplied(text)) == Some(Mapping(text)) && CheckFilled(Mapping(CALL), Mapping(text))
  {
    hide Knows, Fill, CheckFilled, Inert, Marked, IsExpression;
    MappingIsPlain(CALL);
    MappingIsPlain(text);
    var x := Supplied(text);
    var mapped, filled := map["match" := Str(CALL)], map["match" := Str(text)];
    CallFills(l, text);
    FillMap(l, mapped, filled, x);
    MapPasses(mapped, filled);
    TextsAreInert(l);
    assert "defineBelow" in LITERALS;
    InertStays(l, Str("defineBelow"), x, Env(x, x));
    FillMap(l, Mapping(CALL).fields, Mapping(text).fields, x);
    MapPasses(Mapping(CALL).fields, Mapping(text).fields);
  }

  lemma DeletePartFills(l: Library, text: string, k: string)
    requires Knows(l) && k in Delete(CALL)
    ensures k in Delete(text) && Fill(l, Delete(CALL)[k], Supplied(text)) == Some(Delete(text)[k])
    ensures CheckFilled(Delete(CALL)[k], Delete(text)[k])
  {
    hide Knows, Mapping, NoTemplate, OneCondition, MatchExpression, Locator, Inert, Fill, CheckFilled;
    var x := Supplied(text);
    NamesApart();
    if k == "columns" {
      MappingFills(l, text);
    } else if k == "match" {
      ExpressionStays(l, x);
    } else {
      PartsAreInert(l, "");
      InertStays(l, Delete(CALL)[k], x, Env(x, x));
    }
  }

  lemma DeleteFills(l: Library, text: string)
    requires Knows(l)
    ensures Fill(l, Obj(Delete(CALL)), Supplied(text)) == Some(Obj(Delete(text)))
    ensures CheckFilled(Obj(Delete(CALL)), Obj(Delete(text)))
  {
    hide Knows, Delete, Fill, CheckFilled;
    var x := Supplied(text);
    DeleteIsPlain(text);
    DeleteIsPlain(CALL);
    forall k | k in Delete(CALL)
      ensures Fill(l, Delete(CALL)[k], x) == Some(Delete(text)[k]) && CheckFilled(Delete(CALL)[k], Delete(text)[k])
    {
      DeletePartFills(l, text, k);
    }
    FillMap(l, Delete(CALL), Delete(text), x);
    MapPasses(Delete(CALL), Delete(text));
  }

  lemma DeleteIsPlain(text: string)
    ensures !Marked(Obj(Delete(text))) && Delete(text).Keys == Delete(CALL).Keys
  {
    NamesApart();
  }

  lemma ExpressionStays(l: Library, x: map<string, Json>)
    ensures Fill(l, MatchExpression(), x) == Some(MatchExpression()) &&
      CheckFilled(MatchExpression(), MatchExpression())
  {
    assert IsExpression(MatchExpression());
  }

  lemma MapPasses(template: map<string, Json>, filled: map<string, Json>)
    requires !Marked(Obj(template)) && !Marked(Obj(filled)) && template.Keys == filled.Keys
    requires forall k <- template :: CheckFilled(template[k], filled[k])
    ensures CheckFilled(Obj(template), Obj(filled))
  {
  }

  lemma DeleteIsUnnamed()
    ensures UnnamedMarker(Delete(CALL))
  {
    NamesApart();
  }

  lemma DeleteIsLetThrough(l: Library)
    requires Knows(l)
    ensures LetThrough(l, Delete(CALL)) && UnnamedMarker(Delete(CALL))
  {
    hide FirstExpression, StructureMarkers, Knows, KeyRefused;
    var p := Delete(CALL);
    DeleteIsUnnamed();
    FirstIsUnnamedIff(p);
    forall k | k in p ensures KeyRefused(l, k, p[k]).None? {
      DeletePartCalls(l, k);
    }
  }

  lemma DeletePartCalls(l: Library, k: string)
    requires Knows(l) && k in Delete(CALL)
    ensures KeyRefused(l, k, Delete(CALL)[k]).None?
  {
    hide Inert, Knows, NoTemplate, OneCondition, Mapping, MatchExpression, CallsFromAI, FirstColumn, FirstFilter,
         IsExpression;
    NamesApart();
    var x := Supplied("");
    if k == "columns" {
      ColumnsCall(l);
    } else if k == "filters" {
      FiltersCall(l);
    } else if k == "match" {
      MatchCalls(l);
    } else {
      PartsAreInert(l, "");
      InertStays(l, Delete(CALL)[k], x, Env(x, x));
    }
  }

  lemma MatchCalls(l: Library)
    requires Knows(l)
    ensures !CallsFromAI(l, MatchExpression())
  {
    assert |CALL| == 16 && |BODY| == 11;
    assert IsExpression(MatchExpression());
  }

  lemma ColumnsCall(l: Library)
    requires Knows(l)
    ensures KeyRefused(l, "columns", Mapping(CALL)).None?
  {
    hide Knows, CallsFromAI, Inert;
    NamesApart();
    var x := Supplied("");
    var columns := Mapping(CALL).fields;
    TextsAreInert(l);
    assert "defineBelow" in LITERALS;
    InertStays(l, Str("defineBelow"), x, Env(x, x));
    forall k | k in columns ensures !ColumnRefused(l, k, columns[k]) {
    }
  }

  lemma FiltersCall(l: Library)
    requires Knows(l)
    ensures KeyRefused(l, "filters", OneCondition()).None?
  {
    hide Knows, CallsFromAI, Inert, RowRefused;
    NamesApart();
    var rows := [ConditionRow()];
    RowCalls(l);
    assert FirstRow(l, rows, 0).None?;
    var filters := OneCondition().fields;
    forall k | k in filters ensures FilterRefused(l, k, filters[k]).None? {
    }
  }

  lemma RowCalls(l: Library)
    requires Knows(l)
    ensures RowRefused(l, ConditionRow(), 0).None?
  {
    hide Knows, CallsFromAI;
    var row := ConditionRow().fields;
    var x := Supplied("");
    RowIsInert(l);
    NamesApart();
    forall k | k in row ensures !CallsFromAI(l, row[k]) {
      InertStays(l, row[k], x, Env(x, x));
    }
  }

  lemma DeleteIsAccepted(l: Library)
    requires Knows(l)
    ensures Accepted(l, Delete(CALL)) && ToolOperation(l, Delete(CALL)) == DELETE
  {
    hide LetThrough, WritesValues;
    NamesApart();
    DeleteIsLetThrough(l);
  }

  lemma CheckedIsItself()
    ensures Checked(Tool(Delete(CALL), DELETE, TABLE)) == Delete(CALL)
  {
    NamesApart();
  }

  /** What one run of the write ends up with. */
  lemma DeleteRuns(l: Library, table: string, text: string)
    requires Knows(l) && text != CALL
    ensures var r := RunParameters(l, Tool(Delete(CALL), DELETE, table), Supplied(text));
      r.Some? && "match" in r.value && r.value["match"] == Str(text)
  {
    hide Fill, Resolve, CheckFilled, Inert, Locator, NoTemplate, OneCondition, Mapping;
    NamesApart();
    var tool := Tool(Delete(CALL), DELETE, table);
    var x := Supplied(text);
    var env := Env(x, x);
    var calls := [MatchCall()];
    assert Arguments(calls, x, 0) == Some(map[]);
    assert Arguments(calls, x, 1) == Some(map[]["match" := Str(text)]);
    assert map[]["match" := Str(text)] == x;
    DeleteFills(l, text);
    assert Parameter(tool.parameters, "columns") == Mapping(CALL);
    assert calls[0].key == "match";
    assert ItemOf(calls, x) == x;
    var pinned := Pinned(Delete(text), DELETE, table);
    assert RunParameters(l, tool, x) == ResolveAll(l, pinned, env);
    DeletePartsResolve(l, table, text);
    ResolveAllAt(l, pinned, env);
  }

  lemma DeletePartsResolve(l: Library, table: string, text: string)
    requires Knows(l) && text != CALL
    ensures var env := Env(Supplied(text), Supplied(text)); var pinned := Pinned(Delete(text), DELETE, table);
      && "match" in pinned && Resolve(l, pinned["match"], env) == Some(Str(text))
      && forall k <- pinned :: Resolve(l, pinned[k], env).Some?
  {
    hide Resolve, Inert, Locator, NoTemplate, OneCondition, Mapping;
    NamesApart();
    var x := Supplied(text);
    var env := Env(x, x);
    PartsAreInert(l, text);
    InertStays(l, NoTemplate(), x, env);
    InertStays(l, OneCondition(), x, env);
    InertStays(l, Mapping(text), x, env);
    MatchResolves(l, text);
    LocatorResolves(l, table, env);
    TextResolves(l, ROW, env);
    TextResolves(l, DELETE, env);
    TextResolves(l, ABOUT, env);
  }

  lemma MatchResolves(l: Library, text: string)
    requires Knows(l)
    ensures Resolve(l, MatchExpression(), Env(Supplied(text), Supplied(text))) == Some(Str(text))
  {
    assert IsExpression(MatchExpression());
  }

  lemma MatchIsNoSlot()
    ensures !UnderSlot([Key("match")])
  {
    NamesApart();
    var q := [Key("match")];
    forall n: nat | n <= |q| ensures !Slot(q[..n]) {
      assert n == 0 || q[..n] == q;
    }
  }

  lemma TextAt(r: map<string, Json>, text: string)
    requires "match" in r && r["match"] == Str(text)
    ensures ShapeAt(Obj(r), [Key("match")]) == Some(Leaf(Str(text)))
  {
    var q := [Key("match")];
    assert q[1..] == [] && Step(Obj(r), q[0]) == Some(Str(text));
    assert At(Str(text), q[1..]) == Some(Str(text));
  }

  /**
   The promise fails: this write is accepted, its structure is not literal, and
   two runs differ at match, which is in no value slot.
   */
  lemma AcceptedRunsDiffer(l: Library)
    requires Knows(l)
    ensures var tool := Tool(Delete(CALL), "delete", TABLE);
            var any, all := RunParameters(l, tool, Supplied("any")), RunParameters(l, tool, Supplied("all"));
      && Built(l, tool) && NamesAWrite(l, tool.parameters) && !Literal(l, tool.parameters)
      && any.Some? && all.Some? && !UnderSlot([Key("match")])
      && ShapeAt(Obj(any.value), [Key("match")]) == Some(Leaf(Str("any")))
      && ShapeAt(Obj(all.value), [Key("match")]) == Some(Leaf(Str("all")))
      && "any" != "all"
  {
    hide LetThrough, Literal, RunParameters, Accepted, ToolOperation, Knows, UnnamedMarker, UnderSlot, Delete,
         NamesAWrite;
    assert |CALL| == 16 && |"any"| == 3 && |"all"| == 3 && "any"[1] != "all"[1];
    DeleteIsAccepted(l);
    CheckedIsItself();
    WritesAreGuarded(l, Delete(CALL));
    DeleteIsLetThrough(l);
    LetThroughIsLiteralIff(l, Delete(CALL));
    DeleteRuns(l, TABLE, "any");
    DeleteRuns(l, TABLE, "all");
    MatchIsNoSlot();
    TextAt(RunParameters(l, Tool(Delete(CALL), DELETE, TABLE), Supplied("any")).value, "any");
    TextAt(RunParameters(l, Tool(Delete(CALL), DELETE, TABLE), Supplied("all")).value, "all");
  }

  /** There is a library that reads the write this way. */
  lemma SomeLibraryKnows() returns (l: Library)
    ensures Knows(l)
  {
    l := Library(
      s => if s == CALL then Some([MatchCall()]) else Some([]), s => true, (s, x) => None, s => Some([BODY]),
      (s, e: Env) => if "match" in e.item then Some(e.item["match"]) else None, j => Some([MatchCall()]),
      j => true, j => true, s => s, j => "");
  }
}
