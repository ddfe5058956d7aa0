/** Merging streamed tokens (nodes/ai.go): fewer events, the same text in the same places. */
module DeltaCoalescer {
  import opened Wrappers

  /** A piece of streamed text, or anything else the run reports. */
  datatype Event = Delta(iteration: int, model: string, text: string) | Other(content: string)

  /** A stream with the pieces between two other events run together. */
  datatype Part = Text(text: string) | Mark(content: string)

  function AddText(parts: seq<Part>, text: string): seq<Part> {
    if text == "" then parts
    else if parts != [] && parts[|parts| - 1].Text? then
      parts[..|parts| - 1] + [Text(parts[|parts| - 1].text + text)]
    else parts + [Text(text)]
  }

  /** Adjacent deltas merged and empty ones dropped. */
  function Merged(events: seq<Event>): seq<Part> {
    if events == [] then [] else
    var before := Merged(events[..|events| - 1]);
    match events[|events| - 1]
    case Delta(_, _, text) => AddText(before, text)
    case Other(content) => before + [Mark(content)]
  }

  lemma AddTextTwice(parts: seq<Part>, a: string, b: string)
    ensures AddText(AddText(parts, a), b) == AddText(parts, a + b)
  {
    if a == "" {
      assert a + b == b;
    } else if b == "" {
      assert a + b == a;
    } else if parts != [] && parts[|parts| - 1].Text? {
      assert parts[|parts| - 1].text + (a + b) == parts[|parts| - 1].text + a + b;
    }
  }

  lemma MergedAppend(events: seq<Event>, e: Event)
    ensures Merged(events + [e]) ==
      if e.Delta? then AddText(Merged(events), e.text) else Merged(events) + [Mark(e.content)]
  {
    assert (events + [e])[..|events|] == events;
  }

  predicate NoEmptyDeltas(events: seq<Event>) {
    forall k :: 0 <= k < |events| ==> events[k].Delta? ==> events[k].text != ""
  }

  class Coalescer {
    const interval: int
    var emitted: seq<Event>
    var pending: string
    var last: Option<int>
    var model: string
    var iteration: int

    constructor (interval: int)
      ensures emitted == [] && pending == "" && last == None && Stream() == []
    {
      this.interval := interval;
      emitted, pending, last, model, iteration := [], "", None, "", 0;
    }

    /** What a reader would have if the pending text came next. */
    ghost function Stream(): seq<Part>
      reads this
    {
      AddText(Merged(emitted), pending)
    }

    /** Publishes what has accumulated; now is whatever the clock says. */
    method Flush(now: int)
      modifies this
      ensures Stream() == old(Stream()) && pending == "" && Merged(emitted) == Stream()
      ensures old(NoEmptyDeltas(emitted)) ==> NoEmptyDeltas(emitted)
      ensures old(pending) == "" ==> emitted == old(emitted) && last == old(last)
      ensures old(pending) != "" ==>
        emitted == old(emitted) + [Delta(iteration, model, old(pending))] && last == Some(now)
      ensures iteration == old(iteration) && model == old(model)
    {
      if pending == "" {
        return;
      }
      MergedAppend(emitted, Delta(iteration, model, pending));
      emitted := emitted + [Delta(iteration, model, pending)];
      pending := "";
      last := Some(now);
    }

    method Emit(event: Event, before: int, now: int)
      modifies this
      ensures Stream() ==
        if event.Delta? then AddText(old(Stream()), event.text) else old(Stream()) + [Mark(event.content)]
      ensures old(NoEmptyDeltas(emitted)) ==> NoEmptyDeltas(emitted)
      ensures event.Other? ==>
        && emitted == old(emitted)
             + (if old(pending) == "" then [] else [Delta(old(iteration), old(model), old(pending))]) + [event]
        && pending == "" && iteration == old(iteration) && model == old(model)
      ensures event.Delta? ==> iteration == event.iteration && model == event.model
      ensures event.Delta? && old(last).Some? && before - old(last.value) < interval ==>
        emitted == old(emitted) && pending == old(pending) + event.text
      ensures event.Delta? && (old(last).None? || before - old(last.value) >= interval) ==>
        && pending == "" && emitted == old(emitted) +
             if old(pending) + event.text == "" then []
             else [Delta(event.iteration, event.model, old(pending) + event.text)]
    {
      if event.Other? {
        Flush(now);
        MergedAppend(emitted, event);
        emitted := emitted + [event];
        return;
      }
      AddTextTwice(Merged(emitted), pending, event.text);
      pending := pending + event.text;
      model, iteration := event.model, event.iteration;
      if last.None? || before - last.value >= interval {
        Flush(now);
      }
    }
  }

  /** Some event of the input has the labels of this one: a delta's model and iteration, anything else's content. */
  predicate Labelled(events: seq<Event>, e: Event) {
    exists j :: 0 <= j < |events| && SameLabels(events[j], e)
  }

  predicate SameLabels(a: Event, b: Event) {
    if b.Delta? then a.Delta? && a.iteration == b.iteration && a.model == b.model else a == b
  }

  lemma StillLabelled(events: seq<Event>, k: nat)
    requires k < |events|
    ensures forall e :: Labelled(events[..k], e) ==> Labelled(events[..k + 1], e)
    ensures forall text :: events[k].Delta? ==>
      Labelled(events[..k + 1], Delta(events[k].iteration, events[k].model, text))
    ensures events[k].Other? ==> Labelled(events[..k + 1], events[k])
  {
    var all := events[..k + 1];
    forall e | Labelled(events[..k], e) ensures Labelled(all, e) {
      var j :| 0 <= j < k && SameLabels(events[..k][j], e);
      assert all[j] == events[..k][j];
    }
    assert all[k] == events[k];
    forall text | events[k].Delta? ensures Labelled(all, Delta(events[k].iteration, events[k].model, text)) {
      assert SameLabels(all[k], Delta(events[k].iteration, events[k].model, text));
    }
  }

  /**
   Whatever the events and whatever the clock does, the events that come out
   read as the events that went in: no text is lost, repeated or moved past
   another event.
   */
  method Relay(events: seq<Event>, interval: int) returns (out: seq<Event>)
    ensures Merged(out) == Merged(events) && NoEmptyDeltas(out)
    ensures forall k :: 0 <= k < |out| ==> Labelled(events, out[k])
  {
    hide Labelled, AddText;
    var c := new Coalescer(interval);
    assert events[..0] == [] && Merged([]) == [];
    for k := 0 to |events|
      invariant c.Stream() == Merged(events[..k]) && NoEmptyDeltas(c.emitted)
      invariant fresh(c)
      invariant c.pending != "" ==> forall text :: Labelled(events[..k], Delta(c.iteration, c.model, text))
      invariant forall i :: 0 <= i < |c.emitted| ==> Labelled(events[..k], c.emitted[i])
    {
      StillLabelled(events, k);
      assert events[..k + 1] == events[..k] + [events[k]];
      MergedAppend(events[..k], events[k]);
      var before: int, now: int := *, *;
      c.Emit(events[k], before, now);
    }
    assert events[..|events|] == events;
    var now: int := *;
    c.Flush(now);
    out := c.emitted;
  }

  /** Merging loses only where the pieces were cut: the characters are those of the deltas, in order. */
  lemma {:induction false} TextKept(events: seq<Event>)
    ensures PartText(Merged(events)) == DeltaText(events)
    decreases |events|
  {
    if events != [] {
      var before := events[..|events| - 1];
      TextKept(before);
      var last := events[|events| - 1];
      if last.Delta? {
        AddTextText(Merged(before), last.text);
      } else {
        var parts := Merged(before) + [Mark(last.content)];
        assert parts[..|parts| - 1] == Merged(before);
      }
    }
  }

  function DeltaText(events: seq<Event>): string {
    if events == [] then "" else
    DeltaText(events[..|events| - 1]) + if events[|events| - 1].Delta? then events[|events| - 1].text else ""
  }

  function PartText(parts: seq<Part>): string {
    if parts == [] then "" else
    PartText(parts[..|parts| - 1]) + if parts[|parts| - 1].Text? then parts[|parts| - 1].text else ""
  }

  lemma AddTextText(parts: seq<Part>, text: string)
    ensures PartText(AddText(parts, text)) == PartText(parts) + text
  {
    if text == "" {
      assert PartText(parts) + text == PartText(parts);
    } else {
      var more := AddText(parts, text);
      if parts != [] && parts[|parts| - 1].Text? {
        assert more[..|more| - 1] == parts[..|parts| - 1];
      } else {
        assert more[..|more| - 1] == parts;
      }
    }
  }
}
