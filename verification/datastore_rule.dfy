/**
 The write rule of the data table tool (nodes/datastore.go): which places of
 its parameters are value slots, and the walk that lists the expression
 markers outside them.
 */
module DatastoreRule {
  import opened Wrappers
  import opened JsonValues
  import opened Decimals
  import Order

  /** One declared $fromAI argument. */
  datatype Call = Call(key: string, kind: string, fallback: Option<Json>)

  /** What an expression is evaluated against. */
  datatype Env = Env(arguments: map<string, Json>, item: map<string, Json>)

  /**
   The parts that are not this repository's node code: finding the calls in a
   string, splitting a template, evaluating it, and filling a text.
   */
  datatype Library = Library(
    scan: string -> Option<seq<Call>>,
    bare: string -> bool,
    render: (string, map<string, Json>) -> Option<string>,
    bodies: string -> Option<seq<string>>,
    evaluate: (string, Env) -> Option<Json>,
    declared: Json -> Option<seq<Call>>,
    consistent: Json -> bool,
    stepRules: Json -> bool,
    trim: string -> string,
    textOf: Json -> string)

  function Scan(l: Library, s: string): Option<seq<Call>> { l.scan(s) }
  function Bare(l: Library, s: string): bool { l.bare(s) }
  function Render(l: Library, s: string, arguments: map<string, Json>): Option<string> { l.render(s, arguments) }
  function Bodies(l: Library, s: string): Option<seq<string>> { l.bodies(s) }
  function Evaluate(l: Library, s: string, env: Env): Option<Json> { l.evaluate(s, env) }
  function Declared(l: Library, j: Json): Option<seq<Call>> { l.declared(j) }

  function Consistent(l: Library, j: Json): bool { l.consistent(j) }
  function StepRules(l: Library, j: Json): bool { l.stepRules(j) }
  function Trim(l: Library, s: string): string { l.trim(s) }
  function TextOf(l: Library, j: Json): string { l.textOf(j) }

  // ----- Markers and calls ------------------------------------------------

  /** A map that says it is an expression, with or without a template in it. */
  predicate Marked(j: Json) { j.Obj? && "mode" in j.fields && j.fields["mode"] == Str("expression") }

  /** The marker that is evaluated: its value is a template. */
  predicate IsExpression(j: Json) { Marked(j) && "value" in j.fields && j.fields["value"].Str? }

  predicate StringCalls(l: Library, s: string) { Scan(l, s).None? || Scan(l, s).value != [] }

  /** Whether a subtree calls $fromAI, or holds a call that cannot be read. */
  predicate CallsFromAI(l: Library, j: Json) {
    if IsExpression(j) then
      var bodies := Bodies(l, j.fields["value"].text);
      bodies.Some? && exists k :: 0 <= k < |bodies.value| && StringCalls(l, bodies.value[k])
    else match j
      case Str(s) => StringCalls(l, s)
      case Obj(m) => exists k <- m :: CallsFromAI(l, m[k])
      case Arr(s) => exists k :: 0 <= k < |s| && CallsFromAI(l, s[k])
      case _ => false
  }

  predicate HoldsMarker(j: Json) {
    Marked(j) || match j
      case Obj(m) => exists k <- m :: HoldsMarker(m[k])
      case Arr(s) => exists k :: 0 <= k < |s| && HoldsMarker(s[k])
      case _ => false
  }

  // ----- Filling and resolving --------------------------------------------

  /** What one call stands for: what the model supplied, or its default. */
  function ArgumentValue(call: Call, arguments: map<string, Json>): Option<Json> {
    if call.key in arguments && arguments[call.key] != Null then Some(arguments[call.key]) else call.fallback
  }

  function FillString(l: Library, s: string, arguments: map<string, Json>): Option<Json> {
    var calls := Scan(l, s);
    if calls.None? then None
    else if calls.value == [] then Some(Str(s))
    else if |calls.value| == 1 && Bare(l, s) then ArgumentValue(calls.value[0], arguments)
    else
      var text := Render(l, s, arguments);
      if text.None? then None else Some(Str(text.value))
  }

  /** Fills the plain strings of a tree; an expression is left as its author wrote it. */
  function Fill(l: Library, j: Json, arguments: map<string, Json>): Option<Json> {
    if IsExpression(j) then Some(j)
    else match j
      case Str(s) => FillString(l, s, arguments)
      case Obj(m) =>
        if exists k <- m :: Fill(l, m[k], arguments).None? then None
        else Some(Obj(map k <- m :: Fill(l, m[k], arguments).value))
      case Arr(s) =>
        if exists k :: 0 <= k < |s| && Fill(l, s[k], arguments).None? then None
        else Some(Arr(seq(|s|,
          k requires 0 <= k < |s| && Fill(l, s[k], arguments).Some? => Fill(l, s[k], arguments).value)))
      case _ => Some(j)
  }

  /** Evaluates every expression of a tree. */
  function Resolve(l: Library, j: Json, env: Env): Option<Json> {
    if IsExpression(j) then Evaluate(l, j.fields["value"].text, env)
    else match j
      case Obj(m) =>
        if exists k <- m :: Resolve(l, m[k], env).None? then None
        else Some(Obj(map k <- m :: Resolve(l, m[k], env).value))
      case Arr(s) =>
        if exists k :: 0 <= k < |s| && Resolve(l, s[k], env).None? then None
        else Some(Arr(seq(|s|, k requires 0 <= k < |s| && Resolve(l, s[k], env).Some? => Resolve(l, s[k], env).value)))
      case _ => Some(j)
  }

  /** Whether filling left the author's tree a tree of the same shape with no expression the author did not write. */
  predicate CheckFilled(template: Json, filled: Json) {
    if !IsExpression(template) && IsExpression(filled) then false
    else if template.Obj? then
      IsExpression(template) || (
        && filled.Obj? && filled.fields.Keys == template.fields.Keys
        && forall k <- template.fields :: CheckFilled(template.fields[k], filled.fields[k]))
    else if template.Arr? then
      && filled.Arr? && |filled.items| == |template.items|
      && forall k :: 0 <= k < |template.items| ==> CheckFilled(template.items[k], filled.items[k])
    else !HoldsMarker(filled)
  }

  // ----- The slots of a write ---------------------------------------------

  const SKIPPED := {"toolName", "toolDescription"}

  /** Inside one parameter: columns.value.<column> and filters.conditions[i].keyValue. */
  predicate ValueSlot(top: string, segments: Path) {
    if top == "columns" then |segments| == 2 && segments[0] == Key("value") && segments[1].Key?
    else if top == "filters" then
      |segments| == 3 && segments[0] == Key("conditions") && segments[1].Index? && segments[2] == Key("keyValue")
    else false
  }

  /** The places whose content may depend on the model, as paths from the parameters. */
  predicate Slot(path: Path) {
    path != [] && path[0].Key? && (
      if path[0].name in SKIPPED then |path| == 1 else ValueSlot(path[0].name, path[1..]))
  }

  predicate UnderSlot(path: Path) { exists n: nat :: n <= |path| && Slot(path[..n]) }

  /** The paths of the markers a walk from `at` meets, in walk order: keys ascending, not into a slot or a marker. */
  ghost function Markers(j: Json, at: Path): seq<Path>
    decreases j, 1, 0
  {
    if Slot(at) then []
    else if Marked(j) then [at]
    else if j.Obj? then MarkersOfKeys(j, Order.Sorted(j.fields.Keys), at)
    else if j.Arr? then MarkersOfItems(j, |j.items|, at)
    else []
  }

  ghost function MarkersOfKeys(j: Json, keys: seq<string>, at: Path): seq<Path>
    requires j.Obj? && forall k :: 0 <= k < |keys| ==> keys[k] in j.fields
    decreases j, 0, |keys|
  {
    if keys == [] then [] else
    var last := keys[|keys| - 1];
    MarkersOfKeys(j, keys[..|keys| - 1], at) + Markers(j.fields[last], at + [Key(last)])
  }

  ghost function MarkersOfItems(j: Json, n: nat, at: Path): seq<Path>
    requires j.Arr? && n <= |j.items|
    decreases j, 0, n
  {
    if n == 0 then [] else MarkersOfItems(j, n - 1, at) + Markers(j.items[n - 1], at + [Index(n - 1)])
  }

  /** Every marker outside the slots, for a whole parameter map. */
  ghost function StructureMarkers(parameters: map<string, Json>): seq<Path> {
    MarkersOfKeys(Obj(parameters), Order.Sorted(parameters.Keys), [])
  }

  function SegmentText(s: Segment): string {
    if s.Key? then "." + s.name else "[" + Decimal(s.index) + "]"
  }

  function PathText(path: Path): string {
    if path == [] then ""
    else if |path| == 1 && path[0].Key? then path[0].name
    else PathText(path[..|path| - 1]) + SegmentText(path[|path| - 1])
  }

  ghost function Texts(paths: seq<Path>): (texts: seq<string>)
    ensures |texts| == |paths| && forall k :: 0 <= k < |paths| ==> texts[k] == PathText(paths[k])
  {
    seq(|paths|, k requires 0 <= k < |paths| => PathText(paths[k]))
  }

  lemma TextsJoin(found: seq<string>, a: seq<Path>, b: seq<Path>)
    ensures found + Texts(a + b) == found + Texts(a) + Texts(b)
  {
  }

  lemma TextsOfFew(found: seq<string>, path: Path)
    ensures found + Texts([]) == found && found + Texts([path]) == found + [PathText(path)]
  {
  }

  lemma MoreKeys(j: Json, keys: seq<string>, k: nat, at: Path)
    requires j.Obj? && (forall i :: 0 <= i < |keys| ==> keys[i] in j.fields) && k < |keys|
    ensures MarkersOfKeys(j, keys[..k + 1], at) ==
      MarkersOfKeys(j, keys[..k], at) + Markers(j.fields[keys[k]], at + [Key(keys[k])])
  {
    assert keys[..k + 1][..k] == keys[..k];
  }

  /** Answers found followed by the paths of Markers(value), in the order of that list. */
  method ExpressionsOutside(value: Json, path: string, top: string, segments: Path, found: seq<string>)
    returns (r: seq<string>)
    requires top !in SKIPPED && path == PathText([Key(top)] + segments)
    ensures r == found + Texts(Markers(value, [Key(top)] + segments))
    decreases value
  {
    hide ValueSlot, PathText, Marked, Slot, Texts, SegmentText;
    ghost var at := [Key(top)] + segments;
    SlotBelow(top, segments);
    TextsOfFew(found, at);
    r := found;
    if ValueSlot(top, segments) {
      return;
    }
    if Marked(value) {
      return found + [path];
    }
    if value.Obj? {
      var keys := Order.SortKeys(value.fields.Keys);
      for k := 0 to |keys|
        invariant r == found + Texts(MarkersOfKeys(value, keys[..k], at))
      {
        NestedPath(top, segments, Key(keys[k]));
        MoreKeys(value, keys, k, at);
        TextsJoin(found, MarkersOfKeys(value, keys[..k], at), Markers(value.fields[keys[k]], at + [Key(keys[k])]));
        r := ExpressionsOutside(value.fields[keys[k]], path + SegmentText(Key(keys[k])), top,
          segments + [Key(keys[k])], r);
      }
      assert keys[..|keys|] == keys;
    } else if value.Arr? {
      for k := 0 to |value.items|
        invariant r == found + Texts(MarkersOfItems(value, k, at))
      {
        NestedPath(top, segments, Index(k));
        TextsJoin(found, MarkersOfItems(value, k, at), Markers(value.items[k], at + [Index(k)]));
        r := ExpressionsOutside(value.items[k], path + SegmentText(Index(k)), top, segments + [Index(k)], r);
      }
    }
  }

  lemma SlotBelow(top: string, segments: Path)
    requires top !in SKIPPED
    ensures Slot([Key(top)] + segments) <==> ValueSlot(top, segments)
  {
    assert ([Key(top)] + segments)[1..] == segments;
  }

  lemma NestedPath(top: string, segments: Path, s: Segment)
    ensures [Key(top)] + (segments + [s]) == [Key(top)] + segments + [s]
    ensures PathText([Key(top)] + segments + [s]) == PathText([Key(top)] + segments) + SegmentText(s)
  {
    var path := [Key(top)] + segments + [s];
    assert path[..|path| - 1] == [Key(top)] + segments;
  }

  /** Names every marker outside the slots, in an order that does not depend on how the map gives out its keys. */
  method StructureExpressions(parameters: map<string, Json>) returns (paths: seq<string>)
    ensures paths == Texts(StructureMarkers(parameters))
  {
    hide PathText, Texts, Markers, Slot;
    var keys := Order.SortKeys(parameters.Keys);
    paths := [];
    TextsOfFew([], []);
    for k := 0 to |keys|
      invariant paths == Texts(MarkersOfKeys(Obj(parameters), keys[..k], []))
    {
      ghost var before, here :=
        MarkersOfKeys(Obj(parameters), keys[..k], []), Markers(parameters[keys[k]], [Key(keys[k])]);
      MoreKeys(Obj(parameters), keys, k, []);
      TextsJoin([], before, here);
      TopPath(keys[k], parameters[keys[k]]);
      if keys[k] in SKIPPED {
        assert before + here == before;
      } else {
        paths := ExpressionsOutside(parameters[keys[k]], keys[k], keys[k], [], paths);
      }
    }
    assert keys[..|keys|] == keys;
  }

  lemma TopPath(key: string, value: Json)
    ensures [] + [Key(key)] == [Key(key)] == [Key(key)] + [] && PathText([Key(key)]) == key
    ensures key in SKIPPED ==> Markers(value, [Key(key)]) == []
  {
  }

  // ----- What the walk finds ----------------------------------------------

  /** A marker that a walk from `at` reaches: nothing above it is a marker or a slot, and it is not in a slot itself. */
  predicate Outermost(j: Json, at: Path, q: Path) {
    !Slot(at) && if q == [] then Marked(j) else
      !Marked(j) && Step(j, q[0]).Some? && Outermost(Step(j, q[0]).value, at + [q[0]], q[1..])
  }

  /** The walk lists exactly the outermost markers outside the slots. */
  lemma {:induction false} MarkersExact(j: Json, at: Path, q: Path)
    ensures at + q in Markers(j, at) <==> Outermost(j, at, q)
    decreases j, 1, 0
  {
    hide Slot, Marked;
    if Slot(at) {
    } else if Marked(j) {
      assert at + q == at <==> q == [];
    } else if j.Obj? {
      var keys := Order.Sorted(j.fields.Keys);
      KeyMarkersExact(j, keys, at, q);
      if q != [] && q[0].Key? && q[0].name in j.fields {
        assert q[0].name in keys;
      }
    } else if j.Arr? {
      ItemMarkersExact(j, |j.items|, at, q);
    }
  }

  lemma {:induction false} KeyMarkersExact(j: Json, keys: seq<string>, at: Path, q: Path)
    requires j.Obj? && forall k :: 0 <= k < |keys| ==> keys[k] in j.fields
    ensures at + q in MarkersOfKeys(j, keys, at) <==>
      q != [] && q[0].Key? && q[0].name in keys && Outermost(j.fields[q[0].name], at + [q[0]], q[1..])
    decreases j, 0, |keys|
  {
    hide Slot, Marked;
    if keys != [] {
      var last := keys[|keys| - 1];
      var before := keys[..|keys| - 1];
      assert keys == before + [last];
      KeyMarkersExact(j, before, at, q);
      ChildMarkers(j.fields[last], at, Key(last), q);
      if q != [] && q[0] == Key(last) {
        MarkersExact(j.fields[last], at + [Key(last)], q[1..]);
      }
    }
  }

  lemma {:induction false} ItemMarkersExact(j: Json, n: nat, at: Path, q: Path)
    requires j.Arr? && n <= |j.items|
    ensures at + q in MarkersOfItems(j, n, at) <==>
      q != [] && q[0].Index? && q[0].index < n && Outermost(j.items[q[0].index], at + [q[0]], q[1..])
    decreases j, 0, n
  {
    hide Slot, Marked;
    if n > 0 {
      ItemMarkersExact(j, n - 1, at, q);
      ChildMarkers(j.items[n - 1], at, Index(n - 1), q);
      if q != [] && q[0] == Index(n - 1) {
        MarkersExact(j.items[n - 1], at + [Index(n - 1)], q[1..]);
      }
    }
  }

  /** What a child's walk finds starts with the step to the child. */
  lemma ChildMarkers(child: Json, at: Path, s: Segment, q: Path)
    ensures at + q in Markers(child, at + [s]) ==> q != [] && q[0] == s
    ensures q != [] && q[0] == s ==> at + q == at + [s] + q[1..]
  {
    if at + q in Markers(child, at + [s]) {
      MarkersExtend(child, at + [s], at + q);
      assert (at + q)[|at|] == s;
    }
  }

  lemma {:induction false} MarkersExtend(j: Json, at: Path, p: Path)
    requires p in Markers(j, at)
    ensures |p| >= |at| && p[..|at|] == at
    decreases j, 1, 0
  {
    hide Slot, Marked;
    if !Slot(at) && !Marked(j) {
      if j.Obj? {
        KeyMarkersExtend(j, Order.Sorted(j.fields.Keys), at, p);
      } else if j.Arr? {
        ItemMarkersExtend(j, |j.items|, at, p);
      }
    }
  }

  lemma {:induction false} KeyMarkersExtend(j: Json, keys: seq<string>, at: Path, p: Path)
    requires j.Obj? && (forall k :: 0 <= k < |keys| ==> keys[k] in j.fields) && p in MarkersOfKeys(j, keys, at)
    ensures |p| >= |at| && p[..|at|] == at
    decreases j, 0, |keys|
  {
    hide Slot, Marked;
    var last := keys[|keys| - 1];
    if p in MarkersOfKeys(j, keys[..|keys| - 1], at) {
      KeyMarkersExtend(j, keys[..|keys| - 1], at, p);
    } else {
      MarkersExtend(j.fields[last], at + [Key(last)], p);
      assert p[..|at|] == p[..|at| + 1][..|at|];
    }
  }

  lemma {:induction false} ItemMarkersExtend(j: Json, n: nat, at: Path, p: Path)
    requires j.Arr? && n <= |j.items| && p in MarkersOfItems(j, n, at)
    ensures |p| >= |at| && p[..|at|] == at
    decreases j, 0, n
  {
    hide Slot, Marked;
    if p in MarkersOfItems(j, n - 1, at) {
      ItemMarkersExtend(j, n - 1, at, p);
    } else {
      MarkersExtend(j.items[n - 1], at + [Index(n - 1)], p);
      assert p[..|at|] == p[..|at| + 1][..|at|];
    }
  }

  /** The listed places of a parameter map are exactly the outermost markers outside the slots. */
  lemma StructureMarkersExact(parameters: map<string, Json>, q: Path)
    ensures q in StructureMarkers(parameters) <==>
      q != [] && q[0].Key? && q[0].name in parameters && Outermost(parameters[q[0].name], [q[0]], q[1..])
  {
    var keys := Order.Sorted(parameters.Keys);
    KeyMarkersExact(Obj(parameters), keys, [], q);
    assert [] + q == q;
    if q != [] {
      assert [] + [q[0]] == [q[0]];
    }
  }

  /** No place is listed twice. */
  lemma {:induction false} MarkersOnce(j: Json, at: Path, a: nat, b: nat)
    requires a < b < |Markers(j, at)|
    ensures Markers(j, at)[a] != Markers(j, at)[b]
    decreases j, 1, 0
  {
    hide Slot, Marked;
    if j.Obj? {
      KeyMarkersOnce(j, Order.Sorted(j.fields.Keys), at, a, b);
    } else if j.Arr? {
      ItemMarkersOnce(j, |j.items|, at, a, b);
    }
  }

  predicate Distinct(keys: seq<string>) { forall i, k :: 0 <= i < k < |keys| ==> keys[i] != keys[k] }

  lemma SortedDistinct(keys: set<string>)
    ensures Distinct(Order.Sorted(keys))
  {
    var s := Order.Sorted(keys);
    forall i, k | 0 <= i < k < |s| ensures s[i] != s[k] {
      Order.LessTotal(s[i], s[k]);
    }
  }

  lemma {:induction false} KeyMarkersOnce(j: Json, keys: seq<string>, at: Path, a: nat, b: nat)
    requires j.Obj? && forall k :: 0 <= k < |keys| ==> keys[k] in j.fields
    requires a < b < |MarkersOfKeys(j, keys, at)| && keys <= Order.Sorted(j.fields.Keys)
    ensures MarkersOfKeys(j, keys, at)[a] != MarkersOfKeys(j, keys, at)[b]
    decreases j, 0, |keys|
  {
    hide Slot, Marked;
    var last := keys[|keys| - 1];
    var before := MarkersOfKeys(j, keys[..|keys| - 1], at);
    var here := Markers(j.fields[last], at + [Key(last)]);
    if b < |before| {
      KeyMarkersOnce(j, keys[..|keys| - 1], at, a, b);
    } else if a >= |before| {
      MarkersOnce(j.fields[last], at + [Key(last)], a - |before|, b - |before|);
    } else {
      KeyStepsBack(j, keys[..|keys| - 1], at, before[a]);
      MarkersExtend(j.fields[last], at + [Key(last)], here[b - |before|]);
      SortedDistinct(j.fields.Keys);
      assert here[b - |before|][|at|] == Key(last);
    }
  }

  lemma {:induction false} KeyStepsBack(j: Json, keys: seq<string>, at: Path, p: Path)
    requires j.Obj? && (forall k :: 0 <= k < |keys| ==> keys[k] in j.fields) && p in MarkersOfKeys(j, keys, at)
    ensures |p| > |at| && p[|at|].Key? && p[|at|].name in keys
    decreases |keys|
  {
    hide Slot, Marked, Markers;
    var last := keys[|keys| - 1];
    if p in MarkersOfKeys(j, keys[..|keys| - 1], at) {
      KeyStepsBack(j, keys[..|keys| - 1], at, p);
    } else {
      MarkersExtend(j.fields[last], at + [Key(last)], p);
      assert p[|at|] == p[..|at| + 1][|at|] == Key(last);
    }
  }

  lemma {:induction false} ItemMarkersOnce(j: Json, n: nat, at: Path, a: nat, b: nat)
    requires j.Arr? && n <= |j.items| && a < b < |MarkersOfItems(j, n, at)|
    ensures MarkersOfItems(j, n, at)[a] != MarkersOfItems(j, n, at)[b]
    decreases j, 0, n
  {
    hide Slot, Marked;
    var before := MarkersOfItems(j, n - 1, at);
    var here := Markers(j.items[n - 1], at + [Index(n - 1)]);
    if b < |before| {
      ItemMarkersOnce(j, n - 1, at, a, b);
    } else if a >= |before| {
      MarkersOnce(j.items[n - 1], at + [Index(n - 1)], a - |before|, b - |before|);
    } else {
      ItemStepsBack(j, n - 1, at, before[a]);
      MarkersExtend(j.items[n - 1], at + [Index(n - 1)], here[b - |before|]);
      assert here[b - |before|][|at|] == Index(n - 1);
    }
  }

  lemma {:induction false} ItemStepsBack(j: Json, n: nat, at: Path, p: Path)
    requires j.Arr? && n <= |j.items| && p in MarkersOfItems(j, n, at)
    ensures |p| > |at| && p[|at|].Index? && p[|at|].index < n
    decreases n
  {
    hide Slot, Marked, Markers;
    if p in MarkersOfItems(j, n - 1, at) {
      ItemStepsBack(j, n - 1, at, p);
    } else {
      MarkersExtend(j.items[n - 1], at + [Index(n - 1)], p);
      assert p[|at|] == p[..|at| + 1][|at|] == Index(n - 1);
    }
  }

  // ----- The first place, as a refusal names it -------------------------------

  /** The text of the first marker outside the slots. Empty text stands for none. */
  ghost function FirstExpression(parameters: map<string, Json>): string {
    if StructureMarkers(parameters) == [] then "" else PathText(StructureMarkers(parameters)[0])
  }

  method StructureExpression(parameters: map<string, Json>) returns (path: string)
    ensures path == FirstExpression(parameters)
  {
    hide StructureMarkers, PathText;
    var paths := StructureExpressions(parameters);
    path := if paths != [] then paths[0] else "";
  }

  /** A marker directly under the parameter whose name is empty. */
  predicate UnnamedMarker(parameters: map<string, Json>) { "" in parameters && Marked(parameters[""]) }

  lemma {:induction false} EmptyTextIff(path: Path)
    ensures PathText(path) == "" <==> path == [] || path == [Key("")]
  {
  }

  lemma {:induction false} FirstOfKeys(j: Json, keys: seq<string>, at: Path)
    requires j.Obj? && keys != [] && forall k :: 0 <= k < |keys| ==> keys[k] in j.fields
    requires Markers(j.fields[keys[0]], at + [Key(keys[0])]) != []
    ensures MarkersOfKeys(j, keys, at) != []
    ensures MarkersOfKeys(j, keys, at)[0] == Markers(j.fields[keys[0]], at + [Key(keys[0])])[0]
    decreases |keys|
  {
    hide Markers;
    if |keys| > 1 {
      FirstOfKeys(j, keys[..|keys| - 1], at);
    } else {
      assert MarkersOfKeys(j, keys[..0], at) == [];
    }
  }

  lemma EmptyNameSortsFirst(keys: set<string>)
    requires "" in keys
    ensures Order.Sorted(keys) != [] && Order.Sorted(keys)[0] == ""
  {
    var s := Order.Sorted(keys);
    var i :| 0 <= i < |s| && s[i] == "";
    assert !Order.Less(s[0], s[i]);
  }

  /** There is a first marker and its text is empty exactly when a marker is directly under the empty name. */
  lemma FirstIsUnnamedIff(parameters: map<string, Json>)
    ensures StructureMarkers(parameters) != [] && FirstExpression(parameters) == "" <==> UnnamedMarker(parameters)
  {
    hide MarkersOfKeys;
    if UnnamedMarker(parameters) {
      var keys := Order.Sorted(parameters.Keys);
      EmptyNameSortsFirst(parameters.Keys);
      assert [] + [Key("")] == [Key("")];
      assert Markers(parameters[""], [Key("")]) == [[Key("")]];
      FirstOfKeys(Obj(parameters), keys, []);
      EmptyTextIff([Key("")]);
    } else if StructureMarkers(parameters) != [] {
      var first := StructureMarkers(parameters)[0];
      StructureMarkersExact(parameters, first);
      EmptyTextIff(first);
    }
  }
}
