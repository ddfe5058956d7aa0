/**
 The Set node's item building (nodes/executors.go) over the maps it really
 writes: Go maps are references, and a value may be shared with the incoming
 item until it is cloned.
 */
module SetNode {
  import opened JsonValues
  import opened Fields

  /** A value as Go holds it: a map is known by its address; a list is never written into. */
  datatype Node = Scalar(value: Json) | List(nodes: seq<Node>) | Ref(address: nat)

  /** Every map by its address. */
  type Heap = map<nat, map<string, Node>>

  // ----- What a node stands for ---------------------------------------------

  /** The node stands for the value, however much of it is shared. */
  ghost predicate Shows(h: Heap, n: Node, j: Json)
    decreases j
  {
    match j
    case Obj(m) =>
      && n.Ref? && n.address in h && h[n.address].Keys == m.Keys
      && forall k <- m :: Shows(h, h[n.address][k], m[k])
    case Arr(s) => n.List? && |n.nodes| == |s| && forall k :: 0 <= k < |s| ==> Shows(h, n.nodes[k], s[k])
    case _ => n == Scalar(j)
  }

  /** The maps a node reaches. */
  ghost function Foot(h: Heap, n: Node, j: Json): set<nat>
    decreases j
  {
    match j
    case Obj(m) =>
      if !n.Ref? || n.address !in h then {}
      else {n.address} + set k, a | k in m && k in h[n.address] && a in Foot(h, h[n.address][k], m[k]) :: a
    case Arr(s) =>
      if !n.List? || |n.nodes| != |s| then {}
      else set k: nat, a | k < |s| && a in Foot(h, n.nodes[k], s[k]) :: a
    case _ => {}
  }

  /** The node stands for the value and no map on the way down is reached twice. */
  ghost predicate Tree(h: Heap, n: Node, j: Json): (tree: bool)
    ensures tree ==> Shows(h, n, j)
    decreases j
  {
    Shows(h, n, j) && (j.Obj? ==> (
      var m := j.fields;
      && (forall k <- m :: Tree(h, h[n.address][k], m[k]) && n.address !in Foot(h, h[n.address][k], m[k]))
      && (forall k, i | k in m && i in m && k != i ::
        Foot(h, h[n.address][k], m[k]) !! Foot(h, h[n.address][i], m[i]))))
  }

  predicate SameOn(h: Heap, g: Heap, s: set<nat>) { forall a <- s :: a in h && a in g && h[a] == g[a] }

  /** What a node stands for depends on the maps it reaches and on nothing else. */
  lemma {:induction false} ShowsFrame(h: Heap, g: Heap, n: Node, j: Json)
    requires Shows(h, n, j) && SameOn(h, g, Foot(h, n, j))
    ensures Shows(g, n, j) && Foot(g, n, j) == Foot(h, n, j)
    decreases j
  {
    if j.Obj? {
      assert n.address in Foot(h, n, j);
      forall k | k in j.fields
        ensures Shows(g, g[n.address][k], j.fields[k])
        ensures Foot(g, g[n.address][k], j.fields[k]) == Foot(h, h[n.address][k], j.fields[k])
      {
        ShowsFrame(h, g, h[n.address][k], j.fields[k]);
      }
    } else if j.Arr? {
      forall k: nat | k < |j.items|
        ensures Shows(g, n.nodes[k], j.items[k]) && Foot(g, n.nodes[k], j.items[k]) == Foot(h, n.nodes[k], j.items[k])
      {
        ShowsFrame(h, g, n.nodes[k], j.items[k]);
      }
    }
  }

  lemma {:induction false} TreeFrame(h: Heap, g: Heap, n: Node, j: Json)
    requires Tree(h, n, j) && SameOn(h, g, Foot(h, n, j))
    ensures Tree(g, n, j) && Foot(g, n, j) == Foot(h, n, j)
    decreases j
  {
    ShowsFrame(h, g, n, j);
    if j.Obj? {
      assert n.address in Foot(h, n, j);
      forall k | k in j.fields
        ensures Tree(g, g[n.address][k], j.fields[k])
        ensures Foot(g, g[n.address][k], j.fields[k]) == Foot(h, h[n.address][k], j.fields[k])
      {
        TreeFrame(h, g, h[n.address][k], j.fields[k]);
      }
    }
  }

  lemma {:induction false} FootInHeap(h: Heap, n: Node, j: Json)
    requires Shows(h, n, j)
    ensures Foot(h, n, j) <= h.Keys
    decreases j
  {
    if j.Obj? {
      forall k | k in j.fields ensures Foot(h, h[n.address][k], j.fields[k]) <= h.Keys {
        FootInHeap(h, h[n.address][k], j.fields[k]);
      }
    } else if j.Arr? {
      forall k: nat | k < |j.items| ensures Foot(h, n.nodes[k], j.items[k]) <= h.Keys {
        FootInHeap(h, n.nodes[k], j.items[k]);
      }
    }
  }

  // ----- One write ------------------------------------------------------------

  lemma TreeElsewhere(h: Heap, at: nat, x: map<string, Node>, n: Node, j: Json)
    requires Tree(h, n, j) && at !in Foot(h, n, j)
    ensures Tree(h[at := x], n, j) && Foot(h[at := x], n, j) == Foot(h, n, j)
  {
    hide Tree;
    FootInHeap(h, n, j);
    TreeFrame(h, h[at := x], n, j);
  }

  /** The parts of a tree: each field is a tree of its own, apart from the others and from the map itself. */
  lemma FieldsOfTree(h: Heap, at: nat, m: Object, k: string)
    requires Tree(h, Ref(at), Obj(m)) && k in m
    ensures at in h && h[at].Keys == m.Keys && Tree(h, h[at][k], m[k])
    ensures at !in Foot(h, h[at][k], m[k]) && Foot(h, h[at][k], m[k]) <= Foot(h, Ref(at), Obj(m))
    ensures forall i <- m :: Shows(h, h[at][i], m[i])
    ensures forall i <- m :: i != k ==> Foot(h, h[at][k], m[k]) !! Foot(h, h[at][i], m[i])
  {
    assert forall a <- Foot(h, h[at][k], m[k]) :: a in Foot(h, Ref(at), Obj(m));
  }

  /** A map whose fields are trees, apart from each other and from the map itself, is a tree. */
  lemma TreeOfFields(h: Heap, at: nat, m: Object, bound: set<nat>)
    requires at in h && h[at].Keys == m.Keys && at in bound
    requires forall k <- m ::
      Tree(h, h[at][k], m[k]) && at !in Foot(h, h[at][k], m[k]) && Foot(h, h[at][k], m[k]) <= bound
    requires forall k, i | k in m && i in m && k != i :: Foot(h, h[at][k], m[k]) !! Foot(h, h[at][i], m[i])
    ensures Tree(h, Ref(at), Obj(m)) && Foot(h, Ref(at), Obj(m)) <= bound
  {
    assert forall k <- m :: Shows(h, h[at][k], m[k]);
    assert Shows(h, Ref(at), Obj(m));
  }

  /**
   A map changed under one key, in a heap that differs on that key's own maps
   and new ones only: the map with that key's new value.
   */
  lemma ReplaceField(h: Heap, g: Heap, at: nat, m: Object, key: string, j: Json, bound: set<nat>)
    requires Tree(h, Ref(at), Obj(m)) && at in g && g[at].Keys == m.Keys + {key}
    requires forall k <- m :: k != key ==> g[at][k] == h[at][k] && SameOn(h, g, Foot(h, h[at][k], m[k]))
    requires Tree(g, g[at][key], j) && at !in Foot(g, g[at][key], j) && Foot(g, g[at][key], j) <= bound
    requires forall k <- m :: k != key ==> Foot(h, h[at][k], m[k]) !! Foot(g, g[at][key], j)
    requires Foot(h, Ref(at), Obj(m)) <= bound
    ensures Tree(g, Ref(at), Obj(m[key := j])) && Foot(g, Ref(at), Obj(m[key := j])) <= bound
  {
    hide Tree, Foot;
    var n := m[key := j];
    forall k | k in m
      ensures at in bound && Tree(h, h[at][k], m[k]) && at !in Foot(h, h[at][k], m[k])
      ensures Foot(h, h[at][k], m[k]) <= bound
    {
      FieldsOfTree(h, at, m, k);
      RootInFoot(h, at, m);
    }
    forall k | k in m && k != key
      ensures Tree(g, g[at][k], n[k]) && Foot(g, g[at][k], n[k]) == Foot(h, h[at][k], m[k])
    {
      TreeFrame(h, g, h[at][k], m[k]);
    }
    forall k, i | k in n && i in n && k != i ensures Foot(g, g[at][k], n[k]) !! Foot(g, g[at][i], n[i]) {
      if k != key && i != key {
        FieldsOfTree(h, at, m, k);
      }
    }
    RootInFoot(h, at, m);
    TreeOfFields(g, at, n, bound);
  }

  lemma RootInFoot(h: Heap, at: nat, m: Object)
    requires Tree(h, Ref(at), Obj(m))
    ensures at in Foot(h, Ref(at), Obj(m))
  {
  }

  /** The heap one write leaves, walking down from a map and replacing what is not a map on the way. */
  function WriteIn(h: Heap, next: nat, at: nat, path: seq<string>, v: Node): Heap
    requires path != [] && at in h
    decreases |path|
  {
    if |path| == 1 then h[at := h[at][path[0] := v]]
    else if HasMap(h, at, path[0]) then WriteIn(h, next, h[at][path[0]].address, path[1..], v)
    else WriteIn(h[next := map[]][at := h[at][path[0] := Ref(next)]], next + 1, next, path[1..], v)
  }

  predicate HasMap(h: Heap, at: nat, key: string)
    requires at in h
  {
    key in h[at] && h[at][key].Ref? && h[at][key].address in h
  }

  ghost predicate Below(h: Heap, next: nat) { forall a <- h :: a < next }

  /**
   What a write is good for: the tree it is meant to leave, out of the maps
   it may use, and all other maps as they were.
   */
  ghost predicate Wrote(h: Heap, g: Heap, at: nat, m: Object, n: Object, v: Node, j: Json) {
    && Tree(g, Ref(at), Obj(n)) && h.Keys <= g.Keys
    && Foot(g, Ref(at), Obj(n)) <= Foot(h, Ref(at), Obj(m)) + Foot(h, v, j) + (g.Keys - h.Keys)
    && forall a <- h :: a !in Foot(h, Ref(at), Obj(m)) ==> g[a] == h[a]
  }

  lemma StoreKey(h: Heap, at: nat, m: Object, key: string, v: Node, j: Json)
    requires Tree(h, Ref(at), Obj(m)) && Tree(h, v, j) && Foot(h, Ref(at), Obj(m)) !! Foot(h, v, j)
    ensures Wrote(h, h[at := h[at][key := v]], at, m, m[key := j], v, j)
  {
    hide Tree, Foot;
    var g := h[at := h[at][key := v]];
    RootInFoot(h, at, m);
    TreeElsewhere(h, at, h[at][key := v], v, j);
    forall k | k in m
      ensures SameOn(h, g, Foot(h, h[at][k], m[k])) && Foot(h, h[at][k], m[k]) <= Foot(h, Ref(at), Obj(m))
    {
      FieldsOfTree(h, at, m, k);
      FootInHeap(h, h[at][k], m[k]);
    }
    ReplaceField(h, g, at, m, key, j, Foot(h, Ref(at), Obj(m)) + Foot(h, v, j));
  }

  /** The loop of a write leaves exactly the written value, and touches only the maps of the tree it writes into. */
  lemma {:induction false} WriteHolds(h: Heap, next: nat, at: nat, m: Object, path: seq<string>, v: Node, j: Json)
    requires Tree(h, Ref(at), Obj(m)) && Tree(h, v, j) && Foot(h, Ref(at), Obj(m)) !! Foot(h, v, j)
    requires path != [] && Below(h, next)
    ensures Wrote(h, WriteIn(h, next, at, path, v), at, m, Put(m, path, j), v, j)
    decreases |path|, 2
  {
    hide Tree, Foot, Wrote;
    if |path| == 1 {
      StoreKey(h, at, m, path[0], v, j);
    } else if HasMap(h, at, path[0]) {
      WriteDescends(h, next, at, m, path, v, j);
    } else {
      WriteReplaces(h, next, at, m, path, v, j);
    }
  }

  lemma MapOfRef(h: Heap, at: nat, m: Object, key: string)
    requires Tree(h, Ref(at), Obj(m))
    ensures HasMap(h, at, key) <==> key in m && m[key].Obj?
    ensures HasMap(h, at, key) ==> ObjectAt(m, key) == m[key].fields
    ensures !HasMap(h, at, key) ==> ObjectAt(m, key) == map[]
  {
    if key in m {
      assert Shows(h, h[at][key], m[key]);
    }
  }

  lemma {:induction false} WriteDescends(h: Heap, next: nat, at: nat, m: Object, path: seq<string>, v: Node, j: Json)
    requires Tree(h, Ref(at), Obj(m)) && Tree(h, v, j) && Foot(h, Ref(at), Obj(m)) !! Foot(h, v, j)
    requires |path| > 1 && Below(h, next) && HasMap(h, at, path[0])
    ensures Wrote(h, WriteIn(h, next, at, path, v), at, m, Put(m, path, j), v, j)
    decreases |path|, 0
  {
    hide Tree, Foot;
    var key := path[0];
    MapOfRef(h, at, m, key);
    FieldsOfTree(h, at, m, key);
    RootInFoot(h, at, m);
    var c, inner := h[at][key].address, m[key].fields;
    WriteHolds(h, next, c, inner, path[1..], v, j);
    var g := WriteIn(h, next, at, path, v);
    var n := Obj(Put(inner, path[1..], j));
    forall k | k in m && k != key
      ensures SameOn(h, g, Foot(h, h[at][k], m[k])) && Foot(h, h[at][k], m[k]) !! Foot(g, g[at][key], n)
    {
      FieldsOfTree(h, at, m, k);
      FootInHeap(h, h[at][k], m[k]);
    }
    ReplaceField(h, g, at, m, key, n, Foot(h, Ref(at), Obj(m)) + Foot(h, v, j) + (g.Keys - h.Keys));
  }

  lemma {:induction false} WriteReplaces(h: Heap, next: nat, at: nat, m: Object, path: seq<string>, v: Node, j: Json)
    requires Tree(h, Ref(at), Obj(m)) && Tree(h, v, j) && Foot(h, Ref(at), Obj(m)) !! Foot(h, v, j)
    requires |path| > 1 && Below(h, next) && !HasMap(h, at, path[0])
    ensures Wrote(h, WriteIn(h, next, at, path, v), at, m, Put(m, path, j), v, j)
    decreases |path|, 1
  {
    hide Tree, Foot, Put, WriteIn, HasMap;
    var key := path[0];
    MapOfRef(h, at, m, key);
    MakeRoom(h, next, at, m, key, v, j);
    StepIntoRoom(h, next, at, path, v);
    var m1 := m[key := Obj(map[])];
    PutIsOneKey(m, path, j);
    PutIsOneKey(m1, path, j);
    assert m1[key := Child(map[], path, j)] == m[key := Child(map[], path, j)];
    WriteDescends(Room(h, next, at, key), next + 1, at, m1, path, v, j);
  }

  /** The heap with a new empty map under a key. */
  function Room(h: Heap, next: nat, at: nat, key: string): Heap
    requires at in h
  {
    h[next := map[]][at := h[at][key := Ref(next)]]
  }

  lemma StepIntoRoom(h: Heap, next: nat, at: nat, path: seq<string>, v: Node)
    requires at in h && Below(h, next) && |path| > 1 && !HasMap(h, at, path[0])
    ensures WriteIn(h, next, at, path, v) == WriteIn(Room(h, next, at, path[0]), next + 1, at, path, v)
  {
  }

  lemma MakeRoom(h: Heap, next: nat, at: nat, m: Object, key: string, v: Node, j: Json)
    requires Tree(h, Ref(at), Obj(m)) && Tree(h, v, j) && Foot(h, Ref(at), Obj(m)) !! Foot(h, v, j)
    requires Below(h, next)
    ensures var g := Room(h, next, at, key); var n := Obj(m[key := Obj(map[])]);
      && Tree(g, Ref(at), n) && Foot(g, Ref(at), n) <= Foot(h, Ref(at), Obj(m)) + {next}
      && Tree(g, v, j) && Foot(g, v, j) == Foot(h, v, j) && Foot(g, Ref(at), n) !! Foot(g, v, j)
      && Below(g, next + 1) && HasMap(g, at, key) && g.Keys == h.Keys + {next} && at in Foot(h, Ref(at), Obj(m))
  {
    hide Tree, Foot;
    FootInHeap(h, Ref(at), Obj(m));
    FootInHeap(h, v, j);
    var h0 := h[next := map[]];
    TreeElsewhere(h, next, map[], Ref(at), Obj(m));
    TreeElsewhere(h, next, map[], v, j);
    EmptyMap(h0, next);
    StoreKey(h0, at, m, key, Ref(next), Obj(map[]));
    RootInFoot(h, at, m);
    TreeElsewhere(h0, at, h0[at][key := Ref(next)], v, j);
  }

  lemma EmptyMap(h: Heap, a: nat)
    requires a in h && h[a] == map[]
    ensures Tree(h, Ref(a), Obj(map[])) && Foot(h, Ref(a), Obj(map[])) == {a}
  {
  }

  // ----- The node ---------------------------------------------------------------

  /** Which of the incoming fields survive. */
  datatype Inclusion = AllFields | NoFields | Selected(names: seq<string>) | Except(names: seq<string>)

  predicate Keeps(kept: Inclusion, key: string) {
    match kept
    case AllFields => true
    case NoFields => false
    case Selected(names) => key in names
    case Except(names) => key !in names
  }

  function Only(fields: Object, wanted: set<string>): Object { map key | key in fields && key in wanted :: fields[key] }

  function Wanted(keys: set<string>, kept: Inclusion): set<string> { set key | key in keys && Keeps(kept, key) }

  datatype Row = Row(name: string, value: Node)

  /** The fields after the first n assignments, in order. */
  function Assigned(fields: Object, rows: seq<Row>, values: seq<Json>, dotted: bool, n: nat): Object
    requires n <= |rows| == |values|
  {
    if n == 0 then fields
    else Put(Assigned(fields, rows, values, dotted, n - 1), FieldPath(rows[n - 1].name, dotted), values[n - 1])
  }

  predicate Extends(h: Heap, g: Heap) { forall a <- h :: a in g && g[a] == h[a] }

  /** Every map of the program. A new map takes an address that was never used. */
  class Store {
    var heap: Heap
    var next: nat

    constructor ()
      ensures Valid() && heap == map[]
    {
      heap, next := map[], 0;
    }

    ghost predicate Valid()
      reads this
    {
      Below(heap, next)
    }

    method NewMap() returns (at: nat)
      requires Valid()
      modifies this
      ensures Valid() && at == old(next) && next == at + 1 && heap == old(heap)[at := map[]]
    {
      at := next;
      heap := heap[at := map[]];
      next := next + 1;
    }

    /** A deep copy: the same value, out of maps that did not exist before. */
    method Clone(n: Node, ghost j: Json) returns (c: Node)
      requires Valid() && Shows(heap, n, j)
      modifies this
      ensures Valid() && Extends(old(heap), heap)
      ensures Tree(heap, c, j) && Foot(heap, c, j) !! old(heap).Keys
      decreases j, 1
    {
      hide Tree, Foot;
      match n {
        case Scalar(_) =>
          c := n;
          ScalarTree(heap, n, j);
        case List(nodes) =>
          var copies: seq<Node> := [];
          for k := 0 to |nodes|
            invariant Valid() && Extends(old(heap), heap) && |copies| == k
            invariant forall i :: 0 <= i < k ==>
              Shows(heap, copies[i], j.items[i]) && Foot(heap, copies[i], j.items[i]) !! old(heap).Keys
          {
            ghost var before := heap;
            ShowsOn(old(heap), heap, nodes[k], j.items[k]);
            var copy := Clone(nodes[k], j.items[k]);
            forall i | 0 <= i < k
              ensures Shows(heap, copies[i], j.items[i]) && Foot(heap, copies[i], j.items[i]) !! old(heap).Keys
            {
              ShowsOn(before, heap, copies[i], j.items[i]);
            }
            copies := copies + [copy];
          }
          c := List(copies);
          ListTree(heap, copies, j, old(heap).Keys);
        case Ref(source) =>
          var at := NewMap();
          EmptyMap(heap, at);
          CopyFields(source, heap[source].Keys, at, map[], j.fields, old(heap));
          c := Ref(at);
          assert map[] + Only(j.fields, j.fields.Keys) == j.fields;
      }
    }

    /** Copies the wanted fields of one map into another, each one cloned. Nothing that was in base is touched. */
    method CopyFields(source: nat, wanted: set<string>, at: nat, ghost into: Object, ghost fields: Object,
                      ghost base: Heap)
      requires Valid() && Extends(base, heap) && Shows(base, Ref(source), Obj(fields)) && wanted <= fields.Keys
      requires Tree(heap, Ref(at), Obj(into)) && Foot(heap, Ref(at), Obj(into)) !! base.Keys
      modifies this
      ensures Valid() && Extends(base, heap)
      ensures var n := Obj(into + Only(fields, wanted)); Tree(heap, Ref(at), n) && Foot(heap, Ref(at), n) !! base.Keys
      decreases Obj(fields), 0
    {
      hide Tree, Foot, Only;
      var rest := wanted;
      ghost var done := into;
      NoFieldsYet(into, fields, wanted);
      while rest != {}
        invariant rest <= wanted && Valid() && Extends(base, heap)
        invariant done == into + Only(fields, wanted - rest)
        invariant Tree(heap, Ref(at), Obj(done)) && Foot(heap, Ref(at), Obj(done)) !! base.Keys
        decreases |rest|
      {
        var key :| key in rest;
        ShowsOn(base, heap, heap[source][key], fields[key]);
        StoreCloned(at, key, heap[source][key], done, fields[key], base);
        MoreFields(into, fields, wanted, rest, key);
        done := done[key := fields[key]];
        rest := rest - {key};
      }
      assert wanted - rest == wanted;
    }

    /** Stores a clone under one key. */
    method StoreCloned(at: nat, key: string, n: Node, ghost m: Object, ghost j: Json, ghost base: Heap)
      requires Valid() && Extends(base, heap) && Shows(heap, n, j)
      requires Tree(heap, Ref(at), Obj(m)) && Foot(heap, Ref(at), Obj(m)) !! base.Keys
      modifies this
      ensures Valid() && Extends(base, heap)
      ensures Tree(heap, Ref(at), Obj(m[key := j])) && Foot(heap, Ref(at), Obj(m[key := j])) !! base.Keys
      decreases j, 2
    {
      hide Tree, Foot, Wrote;
      ghost var before := heap;
      var copy := Clone(n, j);
      TreeStays(before, heap, Ref(at), Obj(m));
      StoreKey(heap, at, m, key, copy, j);
      WroteOutside(base, heap, heap[at := heap[at][key := copy]], at, m, m[key := j], copy, j);
      RootInFoot(heap, at, m);
      heap := heap[at := heap[at][key := copy]];
    }

    /** The map at at comes to stand for m with j put at the path of name; no map outside that tree is changed. */
    method WriteField(at: nat, name: string, value: Node, dotted: bool, ghost m: Object, ghost j: Json)
      requires Valid() && Tree(heap, Ref(at), Obj(m)) && Tree(heap, value, j)
      requires Foot(heap, Ref(at), Obj(m)) !! Foot(heap, value, j)
      modifies this
      ensures Valid() && Wrote(old(heap), heap, at, m, Put(m, FieldPath(name, dotted), j), value, j)
    {
      hide Tree, Foot, Wrote, Put;
      var segments := FieldPath(name, dotted);
      WriteHolds(heap, next, at, m, segments, value, j);
      var current := at;
      for k := 0 to |segments| - 1
        invariant Valid() && current in heap
        invariant WriteIn(heap, next, current, segments[k..], value) ==
          WriteIn(old(heap), old(next), at, segments, value)
      {
        assert segments[k..][1..] == segments[k + 1..];
        if !HasMap(heap, current, segments[k]) {
          heap, next := heap[next := map[]][current := heap[current][segments[k] := Ref(next)]], next + 1;
        }
        current := heap[current][segments[k]].address;
      }
      heap := heap[current := heap[current][segments[|segments| - 1] := value]];
    }

    /** Builds a new map standing for the kept fields with every assignment put in turn, apart from all earlier maps. */
    method SetItem(item: nat, kept: Inclusion, rows: seq<Row>, dotted: bool, ghost fields: Object,
                   ghost values: seq<Json>)
      returns (built: nat)
      requires Valid() && Shows(heap, Ref(item), Obj(fields)) && |values| == |rows|
      requires forall k :: 0 <= k < |rows| ==> Shows(heap, rows[k].value, values[k])
      modifies this
      ensures Valid() && Extends(old(heap), heap) && built !in old(heap)
      ensures var n := Obj(Assigned(Only(fields, Wanted(fields.Keys, kept)), rows, values, dotted, |rows|));
        Tree(heap, Ref(built), n) && Foot(heap, Ref(built), n) !! old(heap).Keys
    {
      hide Tree, Foot, Wrote, Put;
      built := NewMap();
      EmptyMap(heap, built);
      var wanted := Wanted(heap[item].Keys, kept);
      CopyFields(item, wanted, built, map[], fields, old(heap));
      ghost var done := Only(fields, wanted);
      assert map[] + done == done;
      for k := 0 to |rows|
        invariant Valid() && Extends(old(heap), heap) && done == Assigned(Only(fields, wanted), rows, values, dotted, k)
        invariant Tree(heap, Ref(built), Obj(done)) && Foot(heap, Ref(built), Obj(done)) !! old(heap).Keys
      {
        ghost var before := heap;
        ShowsOn(old(heap), heap, rows[k].value, values[k]);
        var copy := Clone(rows[k].value, values[k]);
        TreeStays(before, heap, Ref(built), Obj(done));
        ghost var here := heap;
        ghost var after := Put(done, FieldPath(rows[k].name, dotted), values[k]);
        WriteField(built, rows[k].name, copy, dotted, done, values[k]);
        WroteOutside(old(heap), here, heap, built, done, after, copy, values[k]);
        done := after;
      }
    }

    /** The raw mode: the surviving fields and then the body's own, all of them cloned. */
    method SetRaw(item: nat, kept: Inclusion, body: nat, ghost fields: Object, ghost bodyFields: Object)
      returns (built: nat)
      requires Valid() && Shows(heap, Ref(item), Obj(fields)) && Shows(heap, Ref(body), Obj(bodyFields))
      modifies this
      ensures Valid() && Extends(old(heap), heap) && built !in old(heap)
      ensures var n := Obj(Only(fields, Wanted(fields.Keys, kept)) + bodyFields);
        Tree(heap, Ref(built), n) && Foot(heap, Ref(built), n) !! old(heap).Keys
    {
      hide Tree, Foot, Only;
      built := NewMap();
      EmptyMap(heap, built);
      var wanted := Wanted(heap[item].Keys, kept);
      CopyFields(item, wanted, built, map[], fields, old(heap));
      assert map[] + Only(fields, wanted) == Only(fields, wanted);
      CopyFields(body, heap[body].Keys, built, Only(fields, wanted), bodyFields, old(heap));
      OnlyAll(bodyFields);
    }
  }

  lemma NoFieldsYet(into: Object, fields: Object, wanted: set<string>)
    ensures into == into + Only(fields, wanted - wanted)
  {
  }

  lemma OnlyAll(fields: Object)
    ensures Only(fields, fields.Keys) == fields
  {
  }

  lemma MoreFields(into: Object, fields: Object, wanted: set<string>, rest: set<string>, key: string)
    requires key in rest && rest <= wanted && wanted <= fields.Keys
    ensures (into + Only(fields, wanted - rest))[key := fields[key]] == into + Only(fields, wanted - (rest - {key}))
  {
  }

  lemma ScalarTree(h: Heap, n: Node, j: Json)
    requires n.Scalar? && Shows(h, n, j)
    ensures Tree(h, n, j) && Foot(h, n, j) == {}
  {
  }

  lemma ListTree(h: Heap, nodes: seq<Node>, j: Json, avoided: set<nat>)
    requires j.Arr? && |nodes| == |j.items|
    requires forall i :: 0 <= i < |nodes| ==> Shows(h, nodes[i], j.items[i]) && Foot(h, nodes[i], j.items[i]) !! avoided
    ensures Tree(h, List(nodes), j) && Foot(h, List(nodes), j) !! avoided
  {
  }

  lemma TreeStays(h: Heap, g: Heap, n: Node, j: Json)
    requires Tree(h, n, j) && Extends(h, g)
    ensures Tree(g, n, j) && Foot(g, n, j) == Foot(h, n, j) && Foot(h, n, j) <= h.Keys
  {
    hide Tree;
    FootInHeap(h, n, j);
    TreeFrame(h, g, n, j);
  }

  /** A write into a tree outside a heap's own maps, of a value outside them, leaves them alone. */
  lemma WroteOutside(base: Heap, h: Heap, g: Heap, at: nat, m: Object, n: Object, v: Node, j: Json)
    requires Extends(base, h) && Wrote(h, g, at, m, n, v, j)
    requires Foot(h, Ref(at), Obj(m)) !! base.Keys && Foot(h, v, j) !! base.Keys
    ensures Extends(base, g) && Tree(g, Ref(at), Obj(n)) && Foot(g, Ref(at), Obj(n)) !! base.Keys
  {
    hide Tree, Foot;
  }

  lemma ShowsOn(h: Heap, g: Heap, n: Node, j: Json)
    requires Shows(h, n, j) && Extends(h, g)
    ensures Shows(g, n, j) && Foot(g, n, j) == Foot(h, n, j)
  {
    FootInHeap(h, n, j);
    ShowsFrame(h, g, n, j);
  }

  /** An assignment reads back as its value unless a later one is at, above or below the same path. */
  lemma {:induction false} AssignmentReads(fields: Object, rows: seq<Row>, values: seq<Json>, i: nat, n: nat)
    requires i < n <= |rows| == |values|
    requires forall k :: i < k < n ==> Apart(Split(rows[k].name), Split(rows[i].name))
    ensures Get(Obj(Assigned(fields, rows, values, true, n)), Split(rows[i].name)) == values[i]
    decreases n
  {
    hide Put, Split, Apart;
    if i == n - 1 {
      PutThenGet(Assigned(fields, rows, values, true, i), Split(rows[i].name), values[i], []);
      assert Split(rows[i].name) + [] == Split(rows[i].name) && Get(values[i], []) == values[i];
    } else {
      AssignmentReads(fields, rows, values, i, n - 1);
      PutElsewhere(Assigned(fields, rows, values, true, n - 1), Split(rows[n - 1].name), values[n - 1],
        Split(rows[i].name));
    }
  }

  /** Which of the incoming fields survive: all, none, those named, or those not named. */
  lemma SurvivesIff(fields: Object, names: seq<string>, key: string)
    ensures Only(fields, Wanted(fields.Keys, AllFields)) == fields
    ensures Only(fields, Wanted(fields.Keys, NoFields)) == map[]
    ensures var kept := Only(fields, Wanted(fields.Keys, Selected(names)));
      (key in kept <==> key in fields && key in names) && (key in kept ==> kept[key] == fields[key])
    ensures var kept := Only(fields, Wanted(fields.Keys, Except(names)));
      (key in kept <==> key in fields && key !in names) && (key in kept ==> kept[key] == fields[key])
  {
  }

  /** What no assignment is at, above or below reads as it did in the fields that survived. */
  lemma {:induction false} UnassignedReads(fields: Object, rows: seq<Row>, values: seq<Json>, q: seq<string>, n: nat)
    requires n <= |rows| == |values| && forall k :: 0 <= k < n ==> Apart(Split(rows[k].name), q)
    ensures Get(Obj(Assigned(fields, rows, values, true, n)), q) == Get(Obj(fields), q)
    decreases n
  {
    hide Put, Split, Apart;
    if n > 0 {
      UnassignedReads(fields, rows, values, q, n - 1);
      PutElsewhere(Assigned(fields, rows, values, true, n - 1), Split(rows[n - 1].name), values[n - 1], q);
    }
  }

  /** With dots off a name holds the last value assigned to it. */
  lemma {:induction false} UndottedAssignmentReads(fields: Object, rows: seq<Row>, values: seq<Json>, k: nat, n: nat)
    requires k < n <= |rows| == |values| && forall i :: k < i < n ==> rows[i].name != rows[k].name
    ensures var built := Assigned(fields, rows, values, false, n);
      rows[k].name in built && built[rows[k].name] == values[k]
    decreases n
  {
    if k < n - 1 {
      UndottedAssignmentReads(fields, rows, values, k, n - 1);
    }
  }

  /** A name that nothing is assigned to is what survived of it. */
  lemma {:induction false} UndottedUnassigned(fields: Object, rows: seq<Row>, values: seq<Json>, name: string, n: nat)
    requires n <= |rows| == |values| && forall k :: 0 <= k < n ==> rows[k].name != name
    ensures var built := Assigned(fields, rows, values, false, n);
      (name in built <==> name in fields) && (name in fields ==> built[name] == fields[name])
    decreases n
  {
    if n > 0 {
      UndottedUnassigned(fields, rows, values, name, n - 1);
    }
  }
}
