/** JSON values, and the places inside one. */
module JsonValues {
  import opened Wrappers

  datatype Json =
    | Null
    | Bool(flag: bool)
    | Num(number: real)
    | Str(text: string)
    | Arr(items: seq<Json>)
    | Obj(fields: map<string, Json>)

  datatype Segment = Key(name: string) | Index(index: nat)

  type Path = seq<Segment>

  function Step(j: Json, s: Segment): Option<Json> {
    if s.Key? then if j.Obj? && s.name in j.fields then Some(j.fields[s.name]) else None
    else if j.Arr? && s.index < |j.items| then Some(j.items[s.index]) else None
  }

  function At(j: Json, path: Path): Option<Json> {
    if path == [] then Some(j) else
    var next := Step(j, path[0]);
    if next.None? then None else At(next.value, path[1..])
  }

  /** One node without what is below it. */
  datatype Shape = Leaf(value: Json) | Keys(keys: set<string>) | Length(length: nat)

  function ShapeOf(j: Json): Shape {
    if j.Obj? then Keys(j.fields.Keys) else if j.Arr? then Length(|j.items|) else Leaf(j)
  }

  function ShapeAt(j: Json, path: Path): Option<Shape> {
    var there := At(j, path);
    if there.None? then None else Some(ShapeOf(there.value))
  }

  /** What has one content at every place is one value. */
  lemma {:induction false} ShapesTell(a: Json, b: Json)
    requires forall q: Path :: ShapeAt(a, q) == ShapeAt(b, q)
    ensures a == b
    decreases a
  {
    hide ShapeAt;
    ShapeHere(a);
    ShapeHere(b);
    assert ShapeAt(a, []) == ShapeAt(b, []);
    if a.Obj? {
      forall k | k in a.fields ensures a.fields[k] == b.fields[k] {
        ShapesBelow(a, b, Key(k));
        ShapesTell(a.fields[k], b.fields[k]);
      }
    } else if a.Arr? {
      forall k | 0 <= k < |a.items| ensures a.items[k] == b.items[k] {
        ShapesBelow(a, b, Index(k));
        ShapesTell(a.items[k], b.items[k]);
      }
    }
  }

  lemma ShapeHere(j: Json)
    ensures ShapeAt(j, []) == Some(ShapeOf(j))
  {
  }

  lemma ShapesBelow(a: Json, b: Json, s: Segment)
    requires forall q: Path :: ShapeAt(a, q) == ShapeAt(b, q)
    requires Step(a, s).Some? && Step(b, s).Some?
    ensures forall q: Path :: ShapeAt(Step(a, s).value, q) == ShapeAt(Step(b, s).value, q)
  {
    forall q: Path ensures ShapeAt(Step(a, s).value, q) == ShapeAt(Step(b, s).value, q) {
      assert ([s] + q)[1..] == q;
      assert ShapeAt(a, [s] + q) == ShapeAt(b, [s] + q);
    }
  }
}
