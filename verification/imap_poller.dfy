/**
 The IMAP trigger's poller (nodes/email.go, internal/mail/imap.go): a UID
 watermark over a mailbox that changes at any moment.
 */
module ImapPoller {
  import opened Wrappers

  /** A mailbox: its UIDVALIDITY, the next UID it will give out, and the messages it holds. */
  datatype Box = Box(validity: nat, next: nat, present: set<nat>)

  predicate Sound(b: Box) { b.next >= 1 && forall u <- b.present :: 1 <= u < b.next }

  /**
   Messages arrive with ever higher UIDs and disappear; a UID is never given
   out twice (RFC 9051, section 2.3.1.1).
   */
  predicate Drifts(a: Box, b: Box) {
    a.validity == b.validity && a.next <= b.next && forall u <- b.present :: u in a.present || u >= a.next
  }

  /** The watermark the poller keeps. A validity of zero stands for no watermark at all. */
  datatype Cursor = Cursor(validity: nat, uid: nat)

  const BATCH := 20

  predicate Ascending(uids: seq<nat>) { forall i, k :: 0 <= i < k < |uids| ==> uids[i] < uids[k] }

  function Above(b: Box, watermark: nat): set<nat> { set u | u in b.present && u > watermark }

  predicate Lists(uids: seq<nat>, s: set<nat>) {
    (forall k :: 0 <= k < |uids| ==> uids[k] in s) && (forall u <- s :: u in uids)
  }

  /** One below the next UID: no message of the box has a greater one. */
  function Baseline(b: Box): nat { if b.next > 1 then b.next - 1 else 0 }

  // ----- The server ---------------------------------------------------------

  class Server {
    var box: Box
    /** How many commands have failed. */
    ghost var failures: nat

    constructor (box: Box)
      ensures this.box == box && failures == 0
    {
      this.box, failures := box, 0;
    }

    /** Whether a command is answered; one that is not counts as a failure. */
    method Answers() returns (answered: bool)
      modifies `failures
      ensures failures == if answered then old(failures) else old(failures) + 1
    {
      answered := *;
      if !answered {
        failures := failures + 1;
      }
    }

    /** What other clients and deliveries do between two of the poller's commands. */
    method Drift()
      requires Sound(box)
      modifies `box
      ensures Sound(box) && Drifts(old(box), box)
    {
      var b: Box := *;
      if Sound(b) && Drifts(box, b) {
        box := b;
      }
    }

    /** Answers UID SEARCH n:*, which names the highest message even when it is below n. */
    method Search(from: nat) returns (uids: Option<seq<nat>>)
      requires Sound(box)
      modifies this
      ensures Sound(box) && Drifts(old(box), box)
      ensures failures == if uids.Some? then old(failures) else old(failures) + 1
      ensures uids.Some? ==> Ascending(uids.value)
      ensures uids.Some? ==>
        Lists(uids.value, Above(box, from)) || (Above(box, from) == {} && |uids.value| == 1 && uids.value[0] <= from)
    {
      Drift();
      var answered := Answers();
      if !answered {
        return None;
      }
      var list := SortUids(Above(box, from));
      if list == [] && box.present != {} {
        var highest :| highest in box.present;
        list := [highest];
      }
      uids := Some(list);
    }

    method Fetch(uid: nat) returns (ok: bool)
      requires Sound(box)
      modifies this
      ensures Sound(box) && Drifts(old(box), box)
      ensures ok ==> uid in box.present && failures == old(failures)
      ensures !ok ==> failures == old(failures) + 1
    {
      Drift();
      ok := Answers();
      if ok && uid !in box.present {
        ok, failures := false, failures + 1;
      }
    }

    method MarkSeen(uid: nat) returns (ok: bool)
      requires Sound(box)
      modifies this
      ensures Sound(box) && Drifts(old(box), box)
      ensures failures == if ok then old(failures) else old(failures) + 1
    {
      Drift();
      ok := Answers();
    }
  }

  method SortUids(s: set<nat>) returns (uids: seq<nat>)
    ensures Ascending(uids) && Lists(uids, s)
  {
    uids := [];
    var rest := s;
    while rest != {}
      invariant rest <= s && Ascending(uids) && Lists(uids, s - rest)
      invariant forall k, u :: 0 <= k < |uids| && u in rest ==> uids[k] < u
      decreases |rest|
    {
      var least := Least(rest);
      uids := uids + [least];
      rest := rest - {least};
    }
    assert s - rest == s;
  }

  method Least(s: set<nat>) returns (least: nat)
    requires s != {}
    ensures least in s && forall u <- s :: least <= u
  {
    least :| least in s;
    var rest := s - {least};
    while rest != {}
      invariant least in s && rest <= s && forall u <- s :: u in rest || least <= u
      decreases |rest|
    {
      var u :| u in rest;
      if u < least {
        least := u;
      }
      rest := rest - {u};
    }
  }

  // ----- One poll -------------------------------------------------------------

  /** One poll as it happened: the mailbox at SELECT, at SEARCH and at the end, and what came of it. */
  datatype Tick = Tick(
    selected: Box, searched: Box, ended: Box, cursor: Cursor, after: Cursor, emitted: seq<nat>, ok: bool)

  predicate Rebased(t: Tick) { t.cursor.validity == 0 || t.cursor.validity != t.selected.validity }

  /** The watermark after a batch. */
  function Highest(cursor: nat, batch: seq<nat>): nat {
    if batch == [] || batch[|batch| - 1] < cursor then cursor else batch[|batch| - 1]
  }

  function Moved(t: Tick): nat {
    var highest := Highest(t.cursor.uid, t.emitted);
    if |t.emitted| < BATCH && t.selected.next > 1 && t.selected.next - 1 > highest then t.selected.next - 1 else highest
  }

  /** The batch a poll takes: the lowest UIDs above the watermark, in order. */
  predicate TakesLowest(uids: seq<nat>, s: set<nat>) {
    && Ascending(uids) && (forall k :: 0 <= k < |uids| ==> uids[k] in s) && |uids| <= BATCH
    && (|uids| < BATCH ==> forall u <- s :: u in uids)
    && forall u <- s :: u in uids || forall k :: 0 <= k < |uids| ==> uids[k] < u
  }

  predicate Polled(t: Tick) {
    && Sound(t.selected) && Sound(t.searched) && Sound(t.ended)
    && Drifts(t.selected, t.searched) && Drifts(t.searched, t.ended)
    && (!t.ok ==> t.after == t.cursor && t.emitted == [])
    && (t.ok && Rebased(t) ==> t.emitted == [] && t.after == Cursor(t.selected.validity, Baseline(t.selected)))
    && (t.ok && !Rebased(t) ==>
      && TakesLowest(t.emitted, Above(t.searched, t.cursor.uid))
      && t.after == Cursor(t.cursor.validity, Moved(t)))
  }

  method SearchUidsAfter(server: Server, watermark: nat) returns (uids: Option<seq<nat>>)
    requires Sound(server.box)
    modifies server
    ensures Sound(server.box) && Drifts(old(server.box), server.box)
    ensures server.failures == if uids.Some? then old(server.failures) else old(server.failures) + 1
    ensures uids.Some? ==> Ascending(uids.value) && Lists(uids.value, Above(server.box, watermark))
  {
    var raw := server.Search(watermark);
    if raw.None? {
      return None;
    }
    var kept: seq<nat> := [];
    for k := 0 to |raw.value|
      invariant Ascending(kept)
      invariant forall i :: 0 <= i < |kept| ==> kept[i] in raw.value[..k] && kept[i] > watermark
      invariant forall i :: 0 <= i < k && raw.value[i] > watermark ==> raw.value[i] in kept
      invariant forall i, n :: 0 <= i < |kept| && k <= n < |raw.value| ==> kept[i] < raw.value[n]
    {
      if raw.value[k] > watermark {
        kept := kept + [raw.value[k]];
      }
    }
    uids := Some(kept);
  }

  method Poll(server: Server, cursor: Cursor, markRead: bool)
    returns (items: seq<nat>, after: Cursor, ok: bool, ghost tick: Tick)
    requires Sound(server.box)
    modifies server
    ensures Sound(server.box) && Polled(tick)
    ensures tick.cursor == cursor && tick.after == after && tick.emitted == items && tick.ok == ok
    ensures tick.ended == server.box && Drifts(old(server.box), tick.selected)
    ensures ok <==> server.failures == old(server.failures)
  {
    hide TakesLowest;
    server.Drift();
    var info := server.box;
    ghost var refused := Tick(info, info, info, cursor, cursor, [], false);
    var selected := server.Answers();
    if !selected {
      return [], cursor, false, refused;
    }
    if cursor.validity == 0 || info.validity != cursor.validity {
      after := Cursor(info.validity, Baseline(info));
      return [], after, true, Tick(info, info, info, cursor, after, [], true);
    }
    var found := SearchUidsAfter(server, cursor.uid);
    ghost var searched := server.box;
    if found.None? {
      return [], cursor, false, Tick(info, searched, searched, cursor, cursor, [], false);
    }
    var uids := found.value;
    if |uids| > BATCH {
      uids := uids[..BATCH];
    }
    FirstAreLowest(found.value, Above(searched, cursor.uid));
    items := [];
    var highest := cursor.uid;
    for k := 0 to |uids|
      invariant Sound(server.box) && Drifts(searched, server.box) && server.failures == old(server.failures)
      invariant items == uids[..k] && highest == Highest(cursor.uid, items)
    {
      var fetched := server.Fetch(uids[k]);
      if !fetched {
        return [], cursor, false, Tick(info, searched, server.box, cursor, cursor, [], false);
      }
      if uids[k] > highest {
        highest := uids[k];
      }
      assert uids[..k] == found.value[..k];
      HighestGrows(found.value, cursor.uid, k);
      items := items + [uids[k]];
      if markRead {
        var marked := server.MarkSeen(uids[k]);
        if !marked {
          return [], cursor, false, Tick(info, searched, server.box, cursor, cursor, [], false);
        }
      }
    }
    assert items == uids;
    if |uids| < BATCH && info.next > 1 && info.next - 1 > highest {
      highest := info.next - 1;
    }
    after := Cursor(cursor.validity, highest);
    ok := true;
    tick := Tick(info, searched, server.box, cursor, after, items, true);
  }

  lemma FirstAreLowest(uids: seq<nat>, s: set<nat>)
    requires Ascending(uids) && Lists(uids, s)
    ensures TakesLowest(if |uids| > BATCH then uids[..BATCH] else uids, s)
  {
    var taken := if |uids| > BATCH then uids[..BATCH] else uids;
    forall u | u in s ensures u in taken || forall k :: 0 <= k < |taken| ==> taken[k] < u {
      var i :| 0 <= i < |uids| && uids[i] == u;
      if i < |taken| {
        assert taken[i] == u;
      }
    }
  }

  lemma HighestGrows(uids: seq<nat>, cursor: nat, k: nat)
    requires Ascending(uids) && k < |uids|
    ensures var before := Highest(cursor, uids[..k]);
      Highest(cursor, uids[..k] + [uids[k]]) == if uids[k] > before then uids[k] else before
  {
    if k > 0 {
      assert uids[..k][k - 1] == uids[k - 1] < uids[k];
    }
  }

  // ----- Runs -------------------------------------------------------------------

  /** Polls one after another: each starts from the cursor the last one left and from a mailbox that drifted on. */
  predicate Run(ticks: seq<Tick>) {
    && (forall k :: 0 <= k < |ticks| ==> Polled(ticks[k]))
    && forall k :: 0 < k < |ticks| ==>
      ticks[k].cursor == ticks[k - 1].after && Drifts(ticks[k - 1].ended, ticks[k].selected)
  }

  /** A run with a watermark for the mailbox, below the UIDs still to come. */
  predicate Watching(ticks: seq<Tick>) {
    && ticks != [] && Run(ticks)
    && ticks[0].cursor.validity == ticks[0].selected.validity != 0 && ticks[0].cursor.uid < ticks[0].selected.next
  }

  /** A first poll, or one that meets a recreated mailbox, emits nothing and starts a watch from the mailbox's top. */
  lemma BaselineStartsWatching(first: Tick, ticks: seq<Tick>)
    requires Polled(first) && first.ok && first.selected.validity != 0
    requires first.cursor.validity == 0 || first.cursor.validity != first.selected.validity
    requires ticks != [] && Run(ticks) && ticks[0].cursor == first.after && Drifts(first.ended, ticks[0].selected)
    ensures first.emitted == [] && Watching(ticks)
    ensures forall u <- first.selected.present :: u <= ticks[0].cursor.uid
  {
  }

  lemma {:induction false} StaysWatching(ticks: seq<Tick>, k: nat)
    requires Watching(ticks) && k < |ticks|
    ensures !Rebased(ticks[k]) && ticks[k].cursor.uid < ticks[k].selected.next
    ensures ticks[k].cursor.uid <= ticks[k].after.uid < ticks[k].ended.next
    decreases k
  {
    if k > 0 {
      StaysWatching(ticks, k - 1);
    }
    var t := ticks[k];
    if t.ok && t.emitted != [] {
      assert t.emitted[|t.emitted| - 1] in Above(t.searched, t.cursor.uid);
    }
  }

  /** The watermark never goes back. */
  lemma {:induction false} WatermarkMonotone(ticks: seq<Tick>, i: nat, k: nat)
    requires Watching(ticks) && i <= k < |ticks|
    ensures ticks[i].cursor.uid <= ticks[k].cursor.uid <= ticks[k].after.uid
    ensures i < k ==> ticks[i].after.uid <= ticks[k].cursor.uid
    decreases k
  {
    StaysWatching(ticks, k);
    if i < k {
      WatermarkMonotone(ticks, i, k - 1);
    }
  }

  lemma EmittedInside(ticks: seq<Tick>, k: nat, u: nat)
    requires Watching(ticks) && k < |ticks| && u in ticks[k].emitted
    ensures ticks[k].cursor.uid < u <= ticks[k].after.uid && u in ticks[k].searched.present
  {
    StaysWatching(ticks, k);
    var t := ticks[k];
    assert t.ok && u in Above(t.searched, t.cursor.uid);
    var i :| 0 <= i < |t.emitted| && t.emitted[i] == u;
    assert i < |t.emitted| - 1 ==> t.emitted[i] < t.emitted[|t.emitted| - 1];
  }

  /** A message is emitted by at most one successful poll, and once within it. */
  lemma EmittedOnce(ticks: seq<Tick>, i: nat, a: nat, k: nat, b: nat)
    requires Watching(ticks) && i < |ticks| && k < |ticks| && a < |ticks[i].emitted| && b < |ticks[k].emitted|
    requires ticks[i].emitted[a] == ticks[k].emitted[b]
    ensures i == k && a == b
  {
    var u := ticks[i].emitted[a];
    EmittedInside(ticks, i, u);
    EmittedInside(ticks, k, u);
    if i < k {
      WatermarkMonotone(ticks, i, k);
    } else if k < i {
      WatermarkMonotone(ticks, k, i);
    } else {
      StaysWatching(ticks, i);
      assert Ascending(ticks[i].emitted);
    }
  }

  /** A poll that moves the watermark past a message either emits it or did not find it there. */
  lemma PassedIsEmittedOrGone(ticks: seq<Tick>, k: nat, u: nat)
    requires Watching(ticks) && k < |ticks| && ticks[k].cursor.uid < u <= ticks[k].after.uid
    ensures u in ticks[k].emitted || u !in ticks[k].searched.present
  {
    StaysWatching(ticks, k);
    var t := ticks[k];
    assert t.ok && (u in t.searched.present ==> u in Above(t.searched, t.cursor.uid));
  }

  lemma {:induction false} StaysGone(ticks: seq<Tick>, i: nat, k: nat, u: nat)
    requires Watching(ticks) && i < k < |ticks| && u < ticks[i].ended.next && u !in ticks[i].ended.present
    ensures u !in ticks[k].searched.present && u !in ticks[k].ended.present && u < ticks[k].ended.next
    decreases k
  {
    if k > i + 1 {
      StaysGone(ticks, i, k - 1, u);
    }
    assert Drifts(ticks[k - 1].ended, ticks[k].selected);
  }

  /** No message above the baseline that is still there when a poll looks is ever skipped. */
  lemma {:induction false} NoneSkipped(ticks: seq<Tick>, k: nat, u: nat)
    requires Watching(ticks) && k < |ticks|
    requires u in ticks[k].searched.present && u > ticks[0].cursor.uid
    ensures u > ticks[k].after.uid || exists i :: 0 <= i <= k && u in ticks[i].emitted
    decreases k
  {
    StaysWatching(ticks, k);
    if u <= ticks[k].after.uid {
      if u > ticks[k].cursor.uid {
        PassedIsEmittedOrGone(ticks, k, u);
      } else {
        var i := PassedAt(ticks, k, u);
        PassedIsEmittedOrGone(ticks, i, u);
        if u !in ticks[i].emitted {
          StaysWatching(ticks, i);
          StaysGone(ticks, i, k, u);
          assert false;
        }
      }
    }
  }

  /** The poll that moved the watermark past a UID. */
  lemma {:induction false} PassedAt(ticks: seq<Tick>, k: nat, u: nat) returns (i: nat)
    requires Watching(ticks) && k < |ticks| && ticks[0].cursor.uid < u <= ticks[k].cursor.uid
    ensures i < k && ticks[i].cursor.uid < u <= ticks[i].after.uid
    decreases k
  {
    assert k > 0;
    if u <= ticks[k - 1].cursor.uid {
      i := PassedAt(ticks, k - 1, u);
    } else {
      i := k - 1;
    }
  }

  // ----- A backlog drains ---------------------------------------------------------

  /** The messages below a bound that are still to be emitted. */
  function Backlog(b: Box, watermark: nat, bound: nat): set<nat> { set u | u in b.present && watermark < u < bound }

  function Less(n: nat, m: nat): nat { if n < m then 0 else n - m }

  lemma {:induction false} AscendingSize(uids: seq<nat>)
    requires Ascending(uids)
    ensures |(set k | 0 <= k < |uids| :: uids[k])| == |uids|
    decreases |uids|
  {
    if uids != [] {
      var rest := uids[..|uids| - 1];
      AscendingSize(rest);
      var last := uids[|uids| - 1];
      var a, b := set k | 0 <= k < |uids| :: uids[k], set k | 0 <= k < |rest| :: rest[k];
      assert forall k :: 0 <= k < |rest| ==> rest[k] == uids[k] < last;
      assert a == b + {last};
    }
  }

  lemma SubsetSize(a: set<nat>, b: set<nat>)
    requires a <= b
    ensures |a| <= |b|
  {
    assert b == a + (b - a);
  }

  /**
   A poll that goes through with a watermark emits the lowest UIDs it found
   above it, in order: twenty of them, or all when there are fewer.
   */
  lemma TakesTwentyOrAll(t: Tick)
    requires Polled(t) && t.ok && t.cursor.validity == t.selected.validity != 0
    ensures |t.emitted| <= 20 && Ascending(t.emitted)
    ensures |t.emitted| == 20 || forall u <- t.searched.present :: u > t.cursor.uid ==> u in t.emitted
    ensures forall k :: 0 <= k < |t.emitted| ==> t.emitted[k] in t.searched.present && t.emitted[k] > t.cursor.uid
    ensures forall u <- t.searched.present ::
      u > t.cursor.uid && u !in t.emitted ==> forall k :: 0 <= k < |t.emitted| ==> t.emitted[k] < u
  {
    forall u | u in t.searched.present && u > t.cursor.uid ensures u in Above(t.searched, t.cursor.uid) {
    }
  }

  /**
   Where a poll that goes through leaves its watermark: at the last message of
   a batch of twenty; else at the top the mailbox had, unless a later message came
   with the batch or the watermark was past it; and at that top as well when
   it was the first or the mailbox was recreated.
   */
  lemma WatermarkMoves(t: Tick)
    requires Polled(t) && t.ok
    ensures var top := t.selected.next - 1; var n := |t.emitted|;
      if t.cursor.validity == 0 || t.cursor.validity != t.selected.validity then
        t.emitted == [] && t.after == Cursor(t.selected.validity, top)
      else
        && t.after.validity == t.cursor.validity
        && (n == 20 ==> t.after.uid == t.emitted[19])
        && (n < 20 ==>
          && t.after.uid >= top && t.after.uid >= t.cursor.uid && (n > 0 ==> t.after.uid >= t.emitted[n - 1])
          && (t.after.uid == top || t.after.uid == t.cursor.uid || (n > 0 && t.after.uid == t.emitted[n - 1])))
  {
    if t.emitted != [] && !Rebased(t) {
      assert t.emitted[|t.emitted| - 1] in Above(t.searched, t.cursor.uid);
    }
  }

  /** A successful poll takes twenty messages off a backlog, or all of it. */
  lemma TickDrains(ticks: seq<Tick>, k: nat, bound: nat)
    requires Watching(ticks) && k < |ticks| && bound <= ticks[k].selected.next
    ensures var t := ticks[k];
      |Backlog(t.ended, t.after.uid, bound)| <=
        Less(|Backlog(t.selected, t.cursor.uid, bound)|, if t.ok then 20 else 0)
  {
    hide TakesLowest;
    StaysWatching(ticks, k);
    var t := ticks[k];
    var before, left := Backlog(t.selected, t.cursor.uid, bound), Backlog(t.ended, t.after.uid, bound);
    assert left <= before;
    SubsetSize(left, before);
    if t.ok && left != {} {
      var u :| u in left;
      FullBatchBelow(ticks, k, bound, u);
      var taken := set i | 0 <= i < |t.emitted| :: t.emitted[i];
      AscendingSize(t.emitted);
      assert taken !! left;
      SubsetSize(taken + left, before);
    }
  }

  /** While something of the backlog is left, the poll took a full batch out of it. */
  lemma FullBatchBelow(ticks: seq<Tick>, k: nat, bound: nat, u: nat)
    requires Watching(ticks) && k < |ticks| && bound <= ticks[k].selected.next && ticks[k].ok
    requires u in Backlog(ticks[k].ended, ticks[k].after.uid, bound)
    ensures |ticks[k].emitted| == BATCH && Ascending(ticks[k].emitted)
    ensures var t := ticks[k];
      forall i :: 0 <= i < |t.emitted| ==>
        t.emitted[i] in Backlog(t.selected, t.cursor.uid, bound) &&
          t.emitted[i] !in Backlog(t.ended, t.after.uid, bound)
  {
    StaysWatching(ticks, k);
    var t := ticks[k];
    assert u in Above(t.searched, t.cursor.uid) && u !in t.emitted by {
      if u in t.emitted {
        EmittedInside(ticks, k, u);
      }
    }
    assert |t.emitted| == BATCH;
    forall i | 0 <= i < |t.emitted|
      ensures t.emitted[i] in Backlog(t.selected, t.cursor.uid, bound) &&
        t.emitted[i] !in Backlog(t.ended, t.after.uid, bound)
    {
      EmittedInside(ticks, k, t.emitted[i]);
      assert t.emitted[i] < u;
    }
  }

  function Successes(ticks: seq<Tick>, n: nat): nat
    requires n <= |ticks|
  {
    if n == 0 then 0 else Successes(ticks, n - 1) + if ticks[n - 1].ok then 1 else 0
  }

  /**
   Whatever arrives meanwhile, k successful polls take 20k messages off what
   was there at the start: a backlog of n is gone after n/20 of them, rounded up.
   */
  lemma {:induction false} BacklogDrains(ticks: seq<Tick>, n: nat)
    requires Watching(ticks) && 1 <= n <= |ticks|
    ensures var bound := ticks[0].selected.next;
      |Backlog(ticks[n - 1].ended, ticks[n - 1].after.uid, bound)|
        <= Less(|Backlog(ticks[0].selected, ticks[0].cursor.uid, bound)|, 20 * Successes(ticks, n))
    decreases n
  {
    var bound := ticks[0].selected.next;
    NextGrows(ticks, n - 1);
    TickDrains(ticks, n - 1, bound);
    if n > 1 {
      BacklogDrains(ticks, n - 1);
      var a := Backlog(ticks[n - 1].selected, ticks[n - 1].cursor.uid, bound);
      var b := Backlog(ticks[n - 2].ended, ticks[n - 2].after.uid, bound);
      NextGrows(ticks, n - 2);
      assert Drifts(ticks[n - 2].ended, ticks[n - 1].selected);
      assert a <= b;
      SubsetSize(a, b);
    } else {
      assert Successes(ticks, 0) == 0;
    }
  }

  lemma {:induction false} NextGrows(ticks: seq<Tick>, k: nat)
    requires Watching(ticks) && k < |ticks|
    ensures ticks[0].selected.next <= ticks[k].selected.next <= ticks[k].ended.next
    decreases k
  {
    if k > 0 {
      NextGrows(ticks, k - 1);
      assert Drifts(ticks[k - 1].ended, ticks[k].selected);
    }
  }

  /** Polling on and on, with the mailbox drifting in between and within, makes such a run. */
  method PollOnAndOn(server: Server, start: Cursor, markRead: bool, n: nat)
    returns (ghost ticks: seq<Tick>, emitted: seq<seq<nat>>, cursor: Cursor)
    requires Sound(server.box)
    modifies server
    ensures |ticks| == |emitted| == n && Run(ticks) && Sound(server.box)
    ensures n > 0 ==> ticks[0].cursor == start && ticks[n - 1].after == cursor
    ensures n > 0 ==> Drifts(old(server.box), ticks[0].selected)
    ensures forall k :: 0 <= k < n ==> ticks[k].emitted == emitted[k]
    ensures n > 0 && start.validity == old(server.box.validity) != 0 && start.uid < old(server.box.next) ==>
      Watching(ticks) && EachOnce(emitted)
  {
    hide Polled, EachOnce;
    ticks, emitted, cursor := [], [], start;
    for k := 0 to n
      invariant |ticks| == |emitted| == k && Run(ticks) && Sound(server.box)
      invariant k > 0 ==> ticks[0].cursor == start && ticks[k - 1].after == cursor && ticks[k - 1].ended == server.box
      invariant k > 0 ==> Drifts(old(server.box), ticks[0].selected)
      invariant k == 0 ==> cursor == start && server.box == old(server.box)
      invariant forall i :: 0 <= i < k ==> ticks[i].emitted == emitted[i]
    {
      var items, next, ok;
      ghost var tick;
      items, next, ok, tick := Poll(server, cursor, markRead);
      ticks, emitted, cursor := ticks + [tick], emitted + [items], next;
    }
    if n > 0 && start.validity == old(server.box.validity) != 0 && start.uid < old(server.box.next) {
      NoneTwice(ticks, emitted);
    }
  }

  /** No message is in two lists, or twice in one. */
  ghost predicate EachOnce(emitted: seq<seq<nat>>) {
    forall i: nat, a: nat, k: nat, b: nat | i < |emitted| && a < |emitted[i]| && k < |emitted| && b < |emitted[k]| ::
      emitted[i][a] == emitted[k][b] ==> i == k && a == b
  }

  lemma NoneTwice(ticks: seq<Tick>, emitted: seq<seq<nat>>)
    requires Watching(ticks) && |emitted| == |ticks| && forall k :: 0 <= k < |ticks| ==> ticks[k].emitted == emitted[k]
    ensures EachOnce(emitted)
  {
    forall i: nat, a: nat, k: nat, b: nat | i < |emitted| && k < |emitted| && a < |emitted[i]| && b < |emitted[k]|
      && emitted[i][a] == emitted[k][b]
      ensures i == k && a == b
    {
      EmittedOnce(ticks, i, a, k, b);
    }
  }
}
