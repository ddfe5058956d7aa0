/**
 Dotted field names: reading one out of an item (nodes/conditions.go) and
 writing one into it (nodes/executors.go).
 */
module Fields {
  import opened JsonValues

  type Object = map<string, Json>

  /** The pieces between the dots; a name without a dot is one piece. */
  function Split(name: string): (segments: seq<string>)
    ensures segments != []
  {
    if name == "" then [""]
    else
      var rest := Split(name[1..]);
      if name[0] == '.' then [""] + rest else [[name[0]] + rest[0]] + rest[1..]
  }

  function Join(segments: seq<string>): string
    requires segments != []
  {
    if |segments| == 1 then segments[0] else segments[0] + "." + Join(segments[1..])
  }

  /** Splitting loses nothing, so different names are different paths. */
  lemma {:induction false} JoinSplit(name: string)
    ensures Join(Split(name)) == name
    decreases |name|
  {
    if name != "" {
      JoinSplit(name[1..]);
      var rest := Split(name[1..]);
      if name[0] == '.' {
        assert ([""] + rest)[1..] == rest;
        assert "" + "." + name[1..] == name;
      } else {
        var all := [[name[0]] + rest[0]] + rest[1..];
        assert all[1..] == rest[1..];
        assert [name[0]] + name[1..] == name;
      }
    }
  }

  lemma {:induction false} SplitDotFree(name: string, k: nat)
    requires k < |Split(name)|
    ensures '.' !in Split(name)[k]
    decreases |name|
  {
    if name != "" {
      if name[0] == '.' {
        if k > 0 {
          SplitDotFree(name[1..], k - 1);
        }
      } else {
        SplitDotFree(name[1..], k);
      }
    }
  }

  /** What is at a path, or nil: a missing field, and anything below something that is not an object. */
  function Get(j: Json, path: seq<string>): Json {
    if path == [] then j
    else if j.Obj? && path[0] in j.fields then Get(j.fields[path[0]], path[1..])
    else Null
  }

  method ItemPath(item: Object, path: string) returns (r: Json)
    ensures r == Get(Obj(item), Split(path))
  {
    var current := Obj(item);
    var segments := Split(path);
    for k := 0 to |segments|
      invariant Get(current, segments[k..]) == Get(Obj(item), segments)
    {
      if !current.Obj? || segments[k] !in current.fields {
        return Null;
      }
      assert segments[k..][1..] == segments[k + 1..];
      current := current.fields[segments[k]];
    }
    r := current;
  }

  function ObjectAt(fields: Object, name: string): Object {
    if name in fields && fields[name].Obj? then fields[name].fields else map[]
  }

  /** Puts a value at a path; an ancestor that is not an object is replaced by one. */
  function Put(fields: Object, path: seq<string>, v: Json): Object
    requires path != []
    decreases |path|
  {
    if |path| == 1 then fields[path[0] := v]
    else fields[path[0] := Obj(Put(ObjectAt(fields, path[0]), path[1..], v))]
  }

  function FieldPath(name: string, dotted: bool): (path: seq<string>)
    ensures path != []
  {
    if dotted then Split(name) else [name]
  }

  // ----- Lens laws ----------------------------------------------------------

  lemma {:induction false} PutThenGet(fields: Object, path: seq<string>, v: Json, below: seq<string>)
    requires path != []
    ensures Get(Obj(Put(fields, path, v)), path + below) == Get(v, below)
    decreases |path|
  {
    var q := path + below;
    assert q[1..] == path[1..] + below;
    if |path| == 1 {
      assert q[1..] == below;
    } else {
      PutThenGet(ObjectAt(fields, path[0]), path[1..], v, below);
    }
  }

  /** Neither is at or below the other. */
  predicate Apart(p: seq<string>, q: seq<string>) { !(p <= q) && !(q <= p) }

  lemma ApartTail(p: seq<string>, q: seq<string>)
    requires Apart(p, q) && p != [] && q != [] && p[0] == q[0]
    ensures p[1..] != [] && q[1..] != [] && Apart(p[1..], q[1..])
  {
    assert p == [p[0]] + p[1..] && q == [q[0]] + q[1..];
  }

  /** A write is not seen from any path that is apart from it, even where it replaced an ancestor. */
  lemma {:induction false} PutElsewhere(fields: Object, path: seq<string>, v: Json, q: seq<string>)
    requires Apart(path, q)
    ensures path != [] && Get(Obj(Put(fields, path, v)), q) == Get(Obj(fields), q)
    decreases |path|
  {
    assert path != [] && q != [];
    if path[0] == q[0] {
      ApartTail(path, q);
      PutElsewhere(ObjectAt(fields, path[0]), path[1..], v, q[1..]);
      if !(path[0] in fields && fields[path[0]].Obj?) {
        assert Get(Obj(map[]), q[1..]) == Null;
      }
    }
  }

  lemma {:induction false} PutTwice(fields: Object, path: seq<string>, v: Json, w: Json)
    requires path != []
    ensures Put(Put(fields, path, v), path, w) == Put(fields, path, w)
    decreases |path|
  {
    if |path| > 1 {
      PutTwice(ObjectAt(fields, path[0]), path[1..], v, w);
    }
  }

  predicate Present(j: Json, path: seq<string>) {
    path == [] || (j.Obj? && path[0] in j.fields && Present(j.fields[path[0]], path[1..]))
  }

  /** Writing back what is there changes nothing, and only then. */
  lemma {:induction false} PutBackIff(fields: Object, path: seq<string>, v: Json)
    requires path != []
    ensures Put(fields, path, v) == fields <==> Present(Obj(fields), path) && Get(Obj(fields), path) == v
    decreases |path|
  {
    if |path| == 1 {
      assert Put(fields, path, v)[path[0]] == v;
      if path[0] in fields && fields[path[0]] == v {
        assert fields[path[0] := v] == fields;
      }
    } else {
      var inner := ObjectAt(fields, path[0]);
      PutBackIff(inner, path[1..], v);
      assert Put(fields, path, v)[path[0]] == Obj(Put(inner, path[1..], v));
      if path[0] in fields && fields[path[0]] == Obj(Put(inner, path[1..], v)) {
        assert fields[path[0] := Obj(Put(inner, path[1..], v))] == fields;
      }
      NothingPresent(path[1..]);
    }
  }

  lemma NothingPresent(path: seq<string>)
    requires path != []
    ensures !Present(Obj(map[]), path)
  {
  }

  /** Writes to paths that are apart may be done in either order. */
  lemma {:induction false} PutsCommute(fields: Object, p: seq<string>, v: Json, q: seq<string>, w: Json)
    requires Apart(p, q)
    ensures p != [] && q != [] && Put(Put(fields, p, v), q, w) == Put(Put(fields, q, w), p, v)
    decreases |p|
  {
    hide Put, ObjectAt, Child;
    assert p != [] && q != [];
    if p[0] == q[0] {
      ApartTail(p, q);
      PutsCommute(ObjectAt(fields, p[0]), p[1..], v, q[1..], w);
      PutsUnderOneKey(fields, p, v, q, w);
      PutsUnderOneKey(fields, q, w, p, v);
    } else {
      TwoKeysCommute(fields, p, v, q, w);
    }
  }

  lemma TwoKeysCommute(fields: Object, p: seq<string>, v: Json, q: seq<string>, w: Json)
    requires p != [] && q != [] && p[0] != q[0]
    ensures Put(Put(fields, p, v), q, w) == Put(Put(fields, q, w), p, v)
  {
    hide Put, ObjectAt, Child;
    PutsUnderTwoKeys(fields, p, v, q, w);
    PutsUnderTwoKeys(fields, q, w, p, v);
    UpdatesCommute(fields, p[0], Child(ObjectAt(fields, p[0]), p, v), q[0], Child(ObjectAt(fields, q[0]), q, w));
  }

  lemma UpdatesCommute(m: Object, a: string, x: Json, b: string, y: Json)
    requires a != b
    ensures m[a := x][b := y] == m[b := y][a := x]
  {
  }

  lemma PutsUnderOneKey(fields: Object, p: seq<string>, v: Json, q: seq<string>, w: Json)
    requires |p| > 1 && |q| > 1 && p[0] == q[0]
    ensures Put(Put(fields, p, v), q, w) == fields[p[0] := Obj(Put(Put(ObjectAt(fields, p[0]), p[1..], v), q[1..], w))]
  {
    hide Put, ObjectAt;
    PutIsOneKey(fields, p, v);
    PutIsOneKey(Put(fields, p, v), q, w);
    ChildIsObject(fields, p[0], Put(ObjectAt(fields, p[0]), p[1..], v));
  }

  lemma PutsUnderTwoKeys(fields: Object, p: seq<string>, v: Json, q: seq<string>, w: Json)
    requires p != [] && q != [] && p[0] != q[0]
    ensures Put(Put(fields, p, v), q, w) ==
      fields[p[0] := Child(ObjectAt(fields, p[0]), p, v)][q[0] := Child(ObjectAt(fields, q[0]), q, w)]
  {
    hide Put, ObjectAt, Child;
    PutIsOneKey(fields, p, v);
    PutIsOneKey(Put(fields, p, v), q, w);
  }

  lemma ChildIsObject(fields: Object, key: string, inner: Object)
    ensures ObjectAt(fields[key := Obj(inner)], key) == inner
  {
  }

  /** What a write leaves under its first key; it depends on that key alone. */
  function Child(inner: Object, path: seq<string>, v: Json): Json
    requires path != []
  {
    if |path| == 1 then v else Obj(Put(inner, path[1..], v))
  }

  lemma PutIsOneKey(fields: Object, path: seq<string>, v: Json)
    requires path != []
    ensures Put(fields, path, v) == fields[path[0] := Child(ObjectAt(fields, path[0]), path, v)]
    ensures forall k :: k != path[0] ==> ObjectAt(Put(fields, path, v), k) == ObjectAt(fields, k)
  {
  }

  /** A name without a dot is the one piece, so that writing it needs no splitting. */
  lemma {:induction false} SplitUndotted(name: string)
    requires '.' !in name
    ensures Split(name) == [name]
    decreases |name|
  {
    if name != "" {
      forall k | 0 <= k < |name| - 1 ensures name[1..][k] != '.' {
        assert name[1..][k] == name[k + 1];
      }
      SplitUndotted(name[1..]);
      assert [name[0]] + name[1..] == name;
    }
  }

  /**
   Written with dots off, a name is one key. Read back as a path it gives the
   value written exactly when it has no dot, or the path held that value
   already: with a dot the reading does not see what was written.
   */
  lemma UndottedIsReadIff(fields: Object, name: string, v: Json)
    ensures var read := Get(Obj(Put(fields, FieldPath(name, false), v)), Split(name));
      && (read == v <==> '.' !in name || Get(Obj(fields), Split(name)) == v)
      && ('.' in name ==> read == Get(Obj(fields), Split(name)))
  {
    if '.' in name {
      SplitDotFree(name, 0);
      assert Split(name)[0] != name;
    } else {
      SplitUndotted(name);
      PutThenGet(fields, [name], v, []);
    }
  }

  /** Written as one key with dots off, a.b cannot be read back: the reading looks for b inside a. */
  lemma UndottedLost(v: Json)
    requires v != Null
    ensures var after := Put(map[], FieldPath("a.b", false), v);
      "a.b" in after && after["a.b"] == v && Split("a.b") == ["a", "b"] && Get(Obj(after), Split("a.b")) == Null != v
  {
    SplitUndotted("b");
    assert "a.b"[1..] == ".b" && ".b"[1..] == "b";
    var rest := Split(".b");
    assert rest == ["", "b"] && rest[1..] == ["b"];
    var name := "a.b";
    assert name[1] == '.' && [name[0]] + rest[0] == "a";
    UndottedIsReadIff(map[], name, v);
  }
}
