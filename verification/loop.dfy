/**
 Loop Over Items (nodes/loop.go): a loop whose state lives in a map the runner
 keeps between invocations, around a body that may return anything.
 */
module LoopNode {
  import opened Wrappers

  /** An entry of the node state: a number, items as they were stored, or items as a checkpoint decoded them. */
  datatype Stored<T> = Number(number: nat) | Items(items: seq<T>) | Decoded(json: string)

  /** How a checkpoint writes a list of items and reads it back. */
  datatype Codec<!T> = Codec(encode: seq<T> -> string, decode: string -> Option<seq<T>>)

  function EncodeItems<T>(c: Codec<T>, items: seq<T>): string { c.encode(items) }
  function DecodeItems<T>(c: Codec<T>, json: string): Option<seq<T>> { c.decode(json) }

  ghost predicate RoundTrips<T(!new)>(c: Codec<T>) {
    forall items: seq<T> :: DecodeItems(c, EncodeItems(c, items)) == Some(items)
  }

  /** What a loop remembers between iterations. */
  datatype LoopState<T> = LoopState(cursor: nat, iteration: nat, pending: seq<T>, collected: seq<T>)

  type Fields<T> = map<string, Stored<T>>

  /** The items a field stands for, as stored or as decoded JSON; none when it is neither. */
  function StateItems<T>(c: Codec<T>, fields: Fields<T>, key: string): seq<T> {
    if key !in fields then [] else
    match fields[key]
    case Items(items) => items
    case Decoded(json) => var items := DecodeItems(c, json); if items.None? then [] else items.value
    case Number(_) => []
  }

  function NumberIn<T>(fields: Fields<T>, key: string): nat {
    if key in fields && fields[key].Number? then fields[key].number else 0
  }

  /** Nothing stored under iteration means nothing has been dispatched: a first entry. */
  function DecodeState<T>(c: Codec<T>, fields: Fields<T>): Option<LoopState<T>> {
    if "iteration" !in fields then None
    else Some(LoopState(NumberIn(fields, "cursor"), NumberIn(fields, "iteration"),
      StateItems(c, fields, "pending"), StateItems(c, fields, "collected")))
  }

  function Encoded<T>(fields: Fields<T>, state: LoopState<T>): Fields<T> {
    fields["iteration" := Number(state.iteration)]["cursor" := Number(state.cursor)]
      ["pending" := Items(state.pending)]["collected" := Items(state.collected)]
  }

  lemma KeysDiffer()
    ensures |"iteration"| == 9 && |"cursor"| == 6 && |"pending"| == 7 && |"collected"| == 9 &&
      "iteration"[0] != "collected"[0]
  {
  }

  lemma DecodeEncoded<T>(c: Codec<T>, fields: Fields<T>, state: LoopState<T>)
    ensures DecodeState(c, Encoded(fields, state)) == Some(state)
  {
    KeysDiffer();
  }

  /** What a checkpoint makes of the state. */
  function Checkpointed<T>(c: Codec<T>, fields: Fields<T>): Fields<T> {
    map key | key in fields :: if fields[key].Items? then Decoded(EncodeItems(c, fields[key].items)) else fields[key]
  }

  /** A checkpoint loses nothing, however often it is taken. */
  lemma CheckpointKeepsState<T(!new)>(c: Codec<T>, fields: Fields<T>)
    requires RoundTrips(c)
    ensures DecodeState(c, Checkpointed(c, fields)) == DecodeState(c, fields)
  {
  }

  // ----- One invocation -----------------------------------------------------

  const DEFAULT_MAX_ITERATIONS := 100

  /** The node's two settings, which may be missing or too small to mean anything. */
  datatype Settings = Settings(batchSize: Option<real>, maxIterations: Option<real>)

  function BatchSize(settings: Settings): (size: nat)
    ensures size >= 1
  {
    if settings.batchSize.Some? && settings.batchSize.value >= 1.0 then settings.batchSize.value.Floor else 1
  }

  function MaxIterations(settings: Settings): (max: nat)
    ensures max >= 1
  {
    if settings.maxIterations.Some? && settings.maxIterations.value >= 1.0 then settings.maxIterations.value.Floor
    else DEFAULT_MAX_ITERATIONS
  }

  datatype Output<T> = Output(done: seq<T>, batch: seq<T>)

  /** The state an invocation works from. */
  function Entered<T>(before: Option<LoopState<T>>, incoming: seq<T>): LoopState<T> {
    if before.None? then LoopState(0, 0, incoming, [])
    else before.value.(collected := before.value.collected + incoming)
  }

  function BatchLength<T>(pending: seq<T>, batchSize: nat): nat {
    if batchSize > |pending| then |pending| else batchSize
  }

  class NodeState<T(!new)> {
    const codec: Codec<T>
    var fields: Fields<T>

    constructor (codec: Codec<T>)
      ensures this.codec == codec && fields == map[]
    {
      this.codec, fields := codec, map[];
    }

    /** Dispatches one batch, or what was collected when there is none left, or fails. */
    method ExecuteLoop(settings: Settings, incoming: seq<T>) returns (r: Result<Output<T>, string>)
      modifies this
      ensures var s := Entered(DecodeState(codec, old(fields)), incoming);
              var n := BatchLength(s.pending, BatchSize(settings));
        if s.pending == [] then
          r == Ok(Output(s.collected, [])) && fields == map[]
        else if s.iteration + 1 > MaxIterations(settings) then
          r.Err? && fields == old(fields)
        else
          && r == Ok(Output([], s.pending[..n]))
          && DecodeState(codec, fields) == Some(LoopState(s.cursor + n, s.iteration + 1, s.pending[n..], s.collected))
    {
      var decoded := DecodeState(codec, fields);
      var state: LoopState<T>;
      if decoded.None? {
        state := LoopState(0, 0, incoming, []);
      } else {
        state := decoded.value;
        state := state.(collected := state.collected + incoming);
      }
      if state.pending == [] {
        fields := map[];
        return Ok(Output(state.collected, []));
      }
      state := state.(iteration := state.iteration + 1);
      if state.iteration > MaxIterations(settings) {
        return Err("exceeded its maximum of iterations");
      }
      var size := BatchSize(settings);
      if size > |state.pending| {
        size := |state.pending|;
      }
      var batch := state.pending[..size];
      state := state.(pending := state.pending[size..], cursor := state.cursor + size);
      DecodeEncoded(codec, fields, state);
      fields := Encoded(fields, state);
      r := Ok(Output([], batch));
    }

    /** The runner may take a checkpoint between any two invocations. */
    method Checkpoint()
      requires RoundTrips(codec)
      modifies this
      ensures DecodeState(codec, fields) == DecodeState(codec, old(fields))
    {
      CheckpointKeepsState(codec, fields);
      fields := Checkpointed(codec, fields);
    }
  }

  // ----- A whole loop ---------------------------------------------------------

  function Concat<T>(lists: seq<seq<T>>): seq<T> {
    if lists == [] then [] else Concat(lists[..|lists| - 1]) + lists[|lists| - 1]
  }

  /** How many batches n items make. */
  function Batches(n: nat, b: nat): nat
    requires b >= 1
  {
    if n == 0 then 0 else if n <= b then 1 else 1 + Batches(n - b, b)
  }

  lemma {:induction false} BatchesIsCeiling(n: nat, b: nat)
    requires b >= 1
    ensures Batches(n, b) == (n + b - 1) / b
    decreases n
  {
    if n == 0 {
      assert (b - 1) / b == 0;
    } else if n <= b {
      OneBatch(n, b);
    } else {
      BatchesIsCeiling(n - b, b);
      AddDivisor(n - 1, b);
    }
  }

  lemma OneBatch(n: nat, b: nat)
    requires 1 <= n <= b
    ensures (n + b - 1) / b == 1
  {
    AddDivisor(n - 1, b);
    assert (n - 1) / b == 0;
  }

  lemma AddDivisor(n: nat, b: nat)
    requires b >= 1
    ensures (n + b) / b == n / b + 1
  {
    var q, r := n / b, n % b;
    assert n == q * b + r;
    assert n + b == (q + 1) * b + r;
    DivideBack(q + 1, b, r);
  }

  lemma DivideBack(q: nat, b: nat, r: nat)
    requires r < b
    ensures (q * b + r) / b == q
  {
    var k := (q * b + r) / b;
    assert k * b <= q * b + r < (k + 1) * b;
    if k < q {
      TimesGrows(k + 1, q, b);
      assert false;
    } else if k > q {
      TimesGrows(q + 1, k, b);
      assert false;
    }
  }

  lemma TimesGrows(x: nat, y: nat, b: nat)
    requires x <= y
    ensures x * b <= y * b
  {
    assert y * b == x * b + (y - x) * b;
  }

  /**
   A loop over items, for any body: each batch goes out and whatever comes
   back comes back, with or without checkpoints in between. It succeeds
   exactly when the batches fit the limit; then the batches are the items cut
   up in order, what leaves on done is what the body returned in order, and
   the state is clear. Otherwise the limit's number of batches went out, and
   nothing left on done.
   */
  method RunLoop<T(!new)>(node: NodeState<T>, settings: Settings, items: seq<T>)
    returns (batches: seq<seq<T>>, returned: seq<seq<T>>, done: Option<seq<T>>)
    requires RoundTrips(node.codec) && node.fields == map[]
    modifies node
    ensures done.Some? <==> Batches(|items|, BatchSize(settings)) <= MaxIterations(settings)
    ensures done.Some? ==>
      && |batches| == Batches(|items|, BatchSize(settings)) && Concat(batches) == items
      && |returned| == |batches| && done.value == Concat(returned) && node.fields == map[]
    ensures done.None? ==> |batches| == MaxIterations(settings) && Concat(batches) < items
    ensures forall k :: 0 <= k < |batches| ==> 1 <= |batches[k]| <= BatchSize(settings)
    ensures forall k :: 0 <= k < |batches| - 1 ==> |batches[k]| == BatchSize(settings)
  {
    hide DecodeState, RoundTrips, BatchSize, MaxIterations, Batches, Concat, Cut;
    ghost var batchSize, maxIterations := BatchSize(settings), MaxIterations(settings);
    batches, returned := [], [];
    var incoming := items;
    ghost var cursor := 0;
    FreshState(node.codec);
    NoBatches<T>(|items|, batchSize);
    NothingCut<T>(batchSize, cursor < |items|);
    while true
      invariant cursor == |Concat(batches)| <= |items| && Concat(batches) == items[..cursor]
      invariant |batches| + Batches(|items| - cursor, batchSize) == Batches(|items|, batchSize)
      invariant |returned| == |batches| <= maxIterations
      invariant var s := Entered(DecodeState(node.codec, node.fields), incoming);
        s.iteration == |batches| && s.pending == items[cursor..] && s.collected == Concat(returned)
      invariant Cut(batches, batchSize, cursor < |items|)
      decreases maxIterations - |batches|
    {
      NoBatches<T>(|items| - cursor, batchSize);
      var r := node.ExecuteLoop(settings, incoming);
      CutMeans(batches, batchSize, cursor < |items|);
      if r.Err? {
        return batches, returned, None;
      }
      if r.value.batch == [] {
        return batches, returned, Some(r.value.done);
      }
      AnotherBatch(items, cursor, batchSize, batches, r.value.batch);
      CutMore(batches, r.value.batch, batchSize, cursor + |r.value.batch| < |items|);
      batches := batches + [r.value.batch];
      cursor := cursor + |r.value.batch|;
      if * {
        node.Checkpoint();
      }
      incoming := *;
      ConcatMore(returned, incoming);
      returned := returned + [incoming];
    }
  }

  /** Batches of the right size: all of them whole, or all but the last. */
  predicate Cut<T>(batches: seq<seq<T>>, b: nat, whole: bool) {
    forall k :: 0 <= k < |batches| ==>
      1 <= |batches[k]| <= b && (whole || k < |batches| - 1 ==> |batches[k]| == b)
  }

  lemma NothingCut<T>(b: nat, whole: bool)
    ensures Cut<T>([], b, whole)
  {
  }

  lemma CutMeans<T>(batches: seq<seq<T>>, b: nat, whole: bool)
    requires Cut(batches, b, whole)
    ensures forall k :: 0 <= k < |batches| ==> 1 <= |batches[k]| <= b
    ensures forall k :: 0 <= k < |batches| - 1 ==> |batches[k]| == b
  {
  }

  lemma CutMore<T>(batches: seq<seq<T>>, batch: seq<T>, b: nat, whole: bool)
    requires Cut(batches, b, true) && 1 <= |batch| <= b && (whole ==> |batch| == b)
    ensures Cut(batches + [batch], b, whole)
  {
  }

  lemma NoBatches<T>(n: nat, b: nat)
    requires b >= 1
    ensures Concat<T>([]) == [] && (Batches(n, b) == 0 <==> n == 0)
  {
  }

  lemma ConcatMore<T>(lists: seq<seq<T>>, last: seq<T>)
    ensures Concat(lists + [last]) == Concat(lists) + last
  {
    assert (lists + [last])[..|lists|] == lists;
  }

  lemma FreshState<T>(c: Codec<T>)
    ensures DecodeState(c, map[]) == None
  {
  }

  lemma AnotherBatch<T>(items: seq<T>, cursor: nat, b: nat, batches: seq<seq<T>>, batch: seq<T>)
    requires b >= 1 && cursor < |items| && Concat(batches) == items[..cursor]
    requires batch == items[cursor..][..BatchLength(items[cursor..], b)]
    ensures Concat(batches + [batch]) == items[..cursor + |batch|] && 1 <= |batch| <= b
    ensures Batches(|items| - cursor, b) == 1 + Batches(|items| - cursor - |batch|, b)
    ensures cursor + |batch| < |items| ==> |batch| == b
    ensures items[cursor..][|batch|..] == items[cursor + |batch|..]
  {
    assert (batches + [batch])[..|batches|] == batches;
  }

  /** A setting of at least one is rounded down; without one a batch holds one item and a loop a hundred batches. */
  lemma SettingsMean(settings: Settings)
    ensures match settings.batchSize
            case Some(size) => if size < 1.0 then BatchSize(settings) == 1 else
              BatchSize(settings) as real <= size < BatchSize(settings) as real + 1.0
            case None => BatchSize(settings) == 1
    ensures match settings.maxIterations
            case Some(max) => if max < 1.0 then MaxIterations(settings) == 100 else
              MaxIterations(settings) as real <= max < MaxIterations(settings) as real + 1.0
            case None => MaxIterations(settings) == 100
  {
  }
}
