/**
 The Gmail trigger's poller (nodes/gmail.go): history reads with a listing to
 fall back on, and a bounded window of remembered ids.
 */
module GmailPoller {
  import opened Wrappers

  const WINDOW := 200

  /** What the poller keeps between ticks. */
  datatype Cursor = Cursor(historyId: string, seen: seq<string>)

  /** What Gmail answers: the ids added and perhaps a newer history id, that the id is too old, or a failure. */
  datatype History = Added(ids: seq<string>, historyId: Option<string>) | TooOld | Failed

  /** One tick's answers: the history, the listing, and the profile's history id. */
  datatype Replies = Replies(history: History, listed: Option<seq<string>>, profile: string)

  type Trimming = string -> string

  function Trim(t: Trimming, s: string): string { t(s) }

  function Last(ids: seq<string>): seq<string> { if |ids| > WINDOW then ids[|ids| - WINDOW..] else ids }

  predicate Distinct(ids: seq<string>) { forall i, k :: 0 <= i < k < |ids| ==> ids[i] != ids[k] }

  /** The ids that are not remembered, each at its first place. */
  function Fresh(seen: seq<string>, ids: seq<string>): (unseen: seq<string>)
    ensures forall k :: 0 <= k < |unseen| ==> unseen[k] !in seen && unseen[k] in ids
    ensures forall k :: 0 <= k < |ids| ==> ids[k] in seen || ids[k] in unseen
    ensures Distinct(unseen)
  {
    if ids == [] then [] else
    var before := Fresh(seen, ids[..|ids| - 1]);
    var last := ids[|ids| - 1];
    assert forall k :: 0 <= k < |ids| - 1 ==> ids[k] == ids[..|ids| - 1][k];
    if last in seen || last in before then before else before + [last]
  }

  /** The ids a history names: trimmed, and without the empty ones. */
  function Named(t: Trimming, ids: seq<string>): (named: seq<string>)
    ensures forall id :: id in named <==> id != "" && exists k :: 0 <= k < |ids| && Trim(t, ids[k]) == id
  {
    if ids == [] then [] else
    var last := Trim(t, ids[|ids| - 1]);
    Named(t, ids[..|ids| - 1]) + if last == "" then [] else [last]
  }

  /** Emits the ids that are not remembered and remembers the last of them. */
  method Remember(seen: seq<string>, ids: seq<string>) returns (items: seq<string>, nextSeen: seq<string>)
    ensures items == Fresh(seen, ids) && nextSeen == Last(seen + items)
  {
    var known: set<string> := set k | 0 <= k < |seen| :: seen[k];
    items, nextSeen := [], seen;
    for k := 0 to |ids|
      invariant items == Fresh(seen, ids[..k]) && nextSeen == seen + items
      invariant forall id :: id in known <==> id in seen || id in items
    {
      assert ids[..k + 1][..k] == ids[..k];
      if ids[k] in known {
        continue;
      }
      items := items + [ids[k]];
      nextSeen := nextSeen + [ids[k]];
      known := known + {ids[k]};
    }
    assert ids[..|ids|] == ids;
    if |nextSeen| > WINDOW {
      nextSeen := nextSeen[|nextSeen| - WINDOW..];
    }
  }

  /** What one tick sees as candidates, if it gets that far. */
  function Candidates(t: Trimming, cursor: Cursor, r: Replies): Option<seq<string>> {
    if Trim(t, cursor.historyId) != "" && r.history.Added? then Some(Named(t, r.history.ids))
    else if Trim(t, cursor.historyId) != "" && r.history.Failed? then None
    else r.listed
  }

  method Poll(t: Trimming, cursor: Option<Cursor>, r: Replies)
    returns (items: seq<string>, next: Option<Cursor>, ok: bool, asked: Option<string>)
    ensures asked ==
      if cursor.Some? && Trim(t, cursor.value.historyId) != "" then Some(cursor.value.historyId) else None
    ensures asked.Some? && r.history.Added? ==>
      && ok && next.Some?
      && next.value.historyId ==
        Trim(t, if r.history.historyId.Some? then r.history.historyId.value else asked.value)
    ensures cursor.Some? && !(asked.Some? && r.history.Added?) ==>
      next.Some? && next.value.historyId == cursor.value.historyId
    ensures asked.Some? && r.history.Added? ==> items == Fresh(cursor.value.seen, Named(t, r.history.ids))
    ensures asked.Some? && r.history.Failed? ==> !ok
    ensures cursor.Some? && (asked.None? || r.history.TooOld?) ==>
      (ok <==> r.listed.Some?) && (ok ==> items == Fresh(cursor.value.seen, r.listed.value))
    ensures !ok ==> items == [] && next == cursor
    ensures cursor.None? && ok ==> items == [] && r.listed.Some? && next == Some(Cursor(r.profile, r.listed.value))
    ensures cursor.Some? && ok ==>
      && Candidates(t, cursor.value, r).Some? && items == Fresh(cursor.value.seen, Candidates(t, cursor.value, r).value)
      && next.Some? && next.value.seen == Last(cursor.value.seen + items)
    ensures cursor.Some? ==> (ok <==> Candidates(t, cursor.value, r).Some?)
    ensures cursor.None? ==> (ok <==> r.listed.Some?)
  {
    hide Fresh;
    if cursor.None? {
      if r.listed.None? {
        return [], cursor, false, None;
      }
      return [], Some(Cursor(r.profile, r.listed.value)), true, None;
    }
    asked := None;
    if Trim(t, cursor.value.historyId) != "" {
      asked := Some(cursor.value.historyId);
      match r.history {
        case Added(ids, historyId) =>
          var named: seq<string> := [];
          for k := 0 to |ids|
            invariant named == Named(t, ids[..k])
          {
            assert ids[..k + 1][..k] == ids[..k];
            var id := Trim(t, ids[k]);
            if id == "" {
              continue;
            }
            named := named + [id];
          }
          assert ids[..|ids|] == ids;
          var seen;
          items, seen := Remember(cursor.value.seen, named);
          var answered := if historyId.Some? then historyId.value else cursor.value.historyId;
          return items, Some(Cursor(Trim(t, answered), seen)), true, asked;
        case Failed =>
          return [], cursor, false, asked;
        case TooOld =>
      }
    }
    if r.listed.None? {
      return [], cursor, false, asked;
    }
    var seen;
    items, seen := Remember(cursor.value.seen, r.listed.value);
    next, ok := Some(Cursor(cursor.value.historyId, seen)), true;
  }

  // ----- Whole runs -------------------------------------------------------------

  /** One tick after the first: what it remembered before and after, and what it emitted. */
  datatype Tick = Tick(before: seq<string>, emitted: seq<string>, after: seq<string>)

  /** A tick that failed changed nothing; one that did not emitted what was not remembered among some candidates. */
  ghost predicate Ticked(t: Tick) {
    || (t.emitted == [] && t.after == t.before)
    || exists ids: seq<string> :: t.emitted == Fresh(t.before, ids) && t.after == Last(t.before + t.emitted)
  }

  /** A run from a baseline of distinct ids, at most a window of them. */
  ghost predicate Run(baseline: seq<string>, ticks: seq<Tick>) {
    Distinct(baseline) && |baseline| <= WINDOW && forall k: nat :: k < |ticks| ==> Step(baseline, ticks, k)
  }

  /** Tick k is a tick, and starts from what the one before it left. */
  ghost predicate Step(baseline: seq<string>, ticks: seq<Tick>, k: nat) {
    k < |ticks| && Ticked(ticks[k]) && ticks[k].before == Left(baseline, ticks, k)
  }

  function Left(baseline: seq<string>, ticks: seq<Tick>, n: nat): seq<string>
    requires n <= |ticks|
  {
    if n == 0 then baseline else ticks[n - 1].after
  }

  /** Everything remembered or emitted in the first n ticks, in order. */
  function Log(baseline: seq<string>, ticks: seq<Tick>, n: nat): seq<string>
    requires n <= |ticks|
  {
    if n == 0 then baseline else Log(baseline, ticks, n - 1) + ticks[n - 1].emitted
  }

  /** No id comes twice within a window. */
  predicate Spaced(log: seq<string>) { forall i, k :: 0 <= i < k < |log| && k - i <= WINDOW ==> log[i] != log[k] }

  lemma LastOfLast(a: seq<string>, b: seq<string>)
    ensures Last(Last(a) + b) == Last(a + b)
  {
    var c, d := Last(a) + b, a + b;
    assert |a| > WINDOW ==> c == d[|a| - WINDOW..];
  }

  lemma InLast(log: seq<string>, i: nat)
    requires i < |log| && |log| - i <= WINDOW
    ensures log[i] in Last(log)
  {
    var last := Last(log);
    assert log[i] == last[i - (|log| - |last|)];
  }

  lemma SpacedAppend(log: seq<string>, unseen: seq<string>)
    requires Spaced(log) && Distinct(unseen) && forall k :: 0 <= k < |unseen| ==> unseen[k] !in Last(log)
    ensures Spaced(log + unseen)
  {
    var all := log + unseen;
    forall i, k | 0 <= i < k < |all| && k - i <= WINDOW ensures all[i] != all[k] {
      if i < |log| <= k {
        InLast(log, i);
        assert all[k] == unseen[k - |log|];
      }
    }
  }

  /** What is remembered is the end of the log, and the log never repeats an id within a window. */
  lemma {:induction false} RemembersTheEnd(baseline: seq<string>, ticks: seq<Tick>, n: nat)
    requires Run(baseline, ticks) && n <= |ticks|
    ensures Left(baseline, ticks, n) == Last(Log(baseline, ticks, n))
    ensures Spaced(Log(baseline, ticks, n))
    decreases n
  {
    hide Spaced, Fresh;
    if n == 0 {
      BaselineIsSpaced(baseline);
    } else {
      RemembersTheEnd(baseline, ticks, n - 1);
      assert Step(baseline, ticks, n - 1);
      var log := Log(baseline, ticks, n - 1);
      var t := ticks[n - 1];
      LastOfLast(log, t.emitted);
      if t.emitted == [] {
        assert log + [] == log;
        LastOfLast(log, []);
        assert t.before + [] == t.before;
      } else {
        SpacedAppend(log, t.emitted);
      }
    }
  }

  lemma BaselineIsSpaced(baseline: seq<string>)
    requires Distinct(baseline)
    ensures Spaced(baseline)
  {
  }

  /**
   After every tick the remembered ids are distinct and at most a window;
   what it emits is distinct and was not remembered.
   */
  lemma WindowKept(baseline: seq<string>, ticks: seq<Tick>, k: nat)
    requires Run(baseline, ticks) && k < |ticks|
    ensures |ticks[k].after| <= 200 && Distinct(ticks[k].after)
    ensures Distinct(ticks[k].emitted) && forall i :: 0 <= i < |ticks[k].emitted| ==>
      ticks[k].emitted[i] !in ticks[k].before
  {
    hide Run, Spaced, Distinct, Last;
    assert Step(baseline, ticks, k) by {
      StepOf(baseline, ticks, k);
    }
    RemembersTheEnd(baseline, ticks, k + 1);
    EndIsDistinct(Log(baseline, ticks, k + 1));
    NothingIsDistinct();
  }

  lemma StepOf(baseline: seq<string>, ticks: seq<Tick>, k: nat)
    requires Run(baseline, ticks) && k < |ticks|
    ensures Step(baseline, ticks, k)
  {
  }

  lemma NothingIsDistinct()
    ensures Distinct([])
  {
  }

  lemma EndIsDistinct(log: seq<string>)
    requires Spaced(log)
    ensures Distinct(Last(log)) && |Last(log)| <= WINDOW
  {
    var last := Last(log);
    forall i, j | 0 <= i < j < |last| ensures last[i] != last[j] {
      assert last[i] == log[i + (|log| - |last|)] && last[j] == log[j + (|log| - |last|)];
    }
  }

  /** Between two emissions of one id there are at least two hundred of other ids, all different. */
  lemma RepeatsAreFarApart(baseline: seq<string>, ticks: seq<Tick>, i: nat, k: nat)
    requires Run(baseline, ticks) && i < k < |Log(baseline, ticks, |ticks|)|
    requires Log(baseline, ticks, |ticks|)[i] == Log(baseline, ticks, |ticks|)[k]
    ensures var log := Log(baseline, ticks, |ticks|);
      && k - i > 200
      && Distinct(log[i + 1..i + 201]) && log[i] !in log[i + 1..i + 201]
  {
    RemembersTheEnd(baseline, ticks, |ticks|);
    var log := Log(baseline, ticks, |ticks|);
    var between := log[i + 1..i + 1 + WINDOW];
    forall a, b | 0 <= a < b < |between| ensures between[a] != between[b] {
      assert between[a] == log[i + 1 + a] && between[b] == log[i + 1 + b];
    }
    forall a | 0 <= a < |between| ensures between[a] != log[i] {
      assert between[a] == log[i + 1 + a];
    }
  }

  /** Tick k read the history and got an answer. */
  predicate ReadHistory(asked: seq<Option<string>>, replies: seq<Replies>, k: nat)
    requires k < |asked| == |replies|
  {
    asked[k].Some? && replies[k].history.Added?
  }

  /** Tick i was the last before tick k to read the history. */
  predicate LastReading(asked: seq<Option<string>>, replies: seq<Replies>, i: nat, k: nat)
    requires i < k <= |asked| == |replies|
  {
    ReadHistory(asked, replies, i) && forall j :: i < j < k ==> !ReadHistory(asked, replies, j)
  }

  /** The id to go on from after a history answered what was asked: a newer one if it named one. */
  function Answered(t: Trimming, asked: Option<string>, r: Replies): string
    requires asked.Some? && r.history.Added?
  {
    Trim(t, if r.history.historyId.Some? then r.history.historyId.value else asked.value)
  }

  function Asking(t: Trimming, id: string): Option<string> { if Trim(t, id) != "" then Some(id) else None }

  /**
   However Gmail answers, polling makes such a run, and each history read
   starts from the id that the last history read before it answered, or from
   the first cursor's.
   */
  method PollOnAndOn(t: Trimming, start: Cursor, n: nat)
    returns (ghost ticks: seq<Tick>, emitted: seq<string>, seen: seq<string>, asked: seq<Option<string>>,
             replies: seq<Replies>)
    requires Distinct(start.seen) && |start.seen| <= 200
    ensures |ticks| == n && Run(start.seen, ticks) && start.seen + emitted == Log(start.seen, ticks, n)
    ensures Spaced(start.seen + emitted) && seen == Last(start.seen + emitted)
    ensures |asked| == |replies| == n
    ensures forall i: nat, k: nat :: i < k < n && LastReading(asked, replies, i, k) ==>
      asked[k] == Asking(t, Answered(t, asked[i], replies[i]))
    ensures forall k: nat :: k < n && (forall i :: 0 <= i < k ==> !ReadHistory(asked, replies, i)) ==>
      asked[k] == Asking(t, start.historyId)
  {
    hide Fresh, Distinct, Candidates, Last, Named, FromLastReading, LastReading, Run, Spaced;
    NothingYet(t, start);
    ticks, emitted, asked, replies := [], [], [], [];
    var cursor := Some(start);
    for k := 0 to n
      invariant |ticks| == |asked| == |replies| == k && Run(start.seen, ticks) && cursor.Some? &&
        cursor.value.seen == Left(start.seen, ticks, k)
      invariant start.seen + emitted == Log(start.seen, ticks, k)
      invariant FromLastReading(t, start.historyId, asked, replies, cursor.value.historyId)
    {
      var reply: Replies := *;
      var items, next, ok, id := Poll(t, cursor, reply);
      ghost var tick := Tick(cursor.value.seen, items, next.value.seen);
      OneMoreTick(start.seen, ticks, tick);
      OneMoreReading(t, start.historyId, asked, replies, cursor.value.historyId, id, reply, next.value.historyId);
      ticks, emitted, cursor := ticks + [tick], emitted + items, next;
      asked, replies := asked + [id], replies + [reply];
    }
    seen := cursor.value.seen;
    RemembersTheEnd(start.seen, ticks, n);
    FromLastReadingMeans(t, start.historyId, asked, replies, cursor.value.historyId);
  }

  lemma NothingYet(t: Trimming, start: Cursor)
    requires Distinct(start.seen) && |start.seen| <= WINDOW
    ensures Run(start.seen, []) && FromLastReading(t, start.historyId, [], [], start.historyId)
  {
  }

  lemma FromLastReadingMeans(t: Trimming, first: string, asked: seq<Option<string>>, replies: seq<Replies>,
                             current: string)
    requires |asked| == |replies| && FromLastReading(t, first, asked, replies, current)
    ensures forall i: nat, k: nat :: i < k < |asked| && LastReading(asked, replies, i, k) ==>
      asked[k] == Asking(t, Answered(t, asked[i], replies[i]))
    ensures forall k: nat :: k < |asked| && (forall i :: 0 <= i < k ==> !ReadHistory(asked, replies, i)) ==>
      asked[k] == Asking(t, first)
  {
  }

  /** Every tick so far asked about the right id, and the next one will be about current. */
  ghost predicate FromLastReading(t: Trimming, first: string, asked: seq<Option<string>>, replies: seq<Replies>,
                                  current: string)
    requires |asked| == |replies|
  {
    && (forall i: nat, k: nat :: i < k < |asked| && LastReading(asked, replies, i, k) ==>
      asked[k] == Asking(t, Answered(t, asked[i], replies[i])))
    && (forall k: nat :: k < |asked| && (forall i :: 0 <= i < k ==> !ReadHistory(asked, replies, i)) ==>
      asked[k] == Asking(t, first))
    && (forall i: nat :: i < |asked| && LastReading(asked, replies, i, |asked|) ==>
      current == Answered(t, asked[i], replies[i]))
    && ((forall i :: 0 <= i < |asked| ==> !ReadHistory(asked, replies, i)) ==> current == first)
  }

  lemma OneMoreReading(t: Trimming, first: string, asked: seq<Option<string>>, replies: seq<Replies>, current: string,
                       id: Option<string>, reply: Replies, next: string)
    requires |asked| == |replies| && FromLastReading(t, first, asked, replies, current) && id == Asking(t, current)
    requires next == if id.Some? && reply.history.Added? then Answered(t, id, reply) else current
    ensures FromLastReading(t, first, asked + [id], replies + [reply], next)
  {
    hide Answered, Asking;
    var all, answers, n := asked + [id], replies + [reply], |asked|;
    forall i: nat | i < n ensures ReadHistory(all, answers, i) <==> ReadHistory(asked, replies, i) {
    }
    assert ReadHistory(all, answers, n) <==> id.Some? && reply.history.Added?;
    forall i: nat, k: nat | i < k <= n ensures LastReading(all, answers, i, k) <==> LastReading(asked, replies, i, k) {
    }
    forall i: nat | i < n && LastReading(all, answers, i, n + 1) ensures LastReading(asked, replies, i, n) {
      assert !ReadHistory(all, answers, n);
    }
  }

  lemma OneMoreTick(baseline: seq<string>, ticks: seq<Tick>, t: Tick)
    requires Run(baseline, ticks) && Ticked(t) && t.before == Left(baseline, ticks, |ticks|)
    ensures Run(baseline, ticks + [t]) && Left(baseline, ticks + [t], |ticks| + 1) == t.after
    ensures Log(baseline, ticks + [t], |ticks| + 1) == Log(baseline, ticks, |ticks|) + t.emitted
  {
    var all := ticks + [t];
    forall k: nat | k < |all| ensures Step(baseline, all, k) {
      if k < |ticks| {
        assert Step(baseline, ticks, k);
        assert k > 0 ==> all[k - 1] == ticks[k - 1];
      } else {
        assert k > 0 ==> all[k - 1] == ticks[k - 1];
      }
    }
    LogPrefix(baseline, ticks, all, |ticks|);
  }

  lemma {:induction false} LogPrefix(baseline: seq<string>, ticks: seq<Tick>, all: seq<Tick>, n: nat)
    requires n <= |ticks| && ticks <= all
    ensures Log(baseline, all, n) == Log(baseline, ticks, n)
    decreases n
  {
    if n > 0 {
      LogPrefix(baseline, ticks, all, n - 1);
    }
  }
}
