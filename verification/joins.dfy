/**
 The Merge node's join on fields (nodes/executors.go): an indexed join that
 has to be the join of every left item with every right item.
 */
module Joins {
  import opened Wrappers
  import opened JsonValues
  import opened Fields

  /** An item, its attachments and the input it is known to correspond to. */
  datatype Item = Item(json: Object, binary: map<string, string>, paired: Option<nat>)

  /** JSON encoding, which may refuse a value. */
  type Encoding = Json -> Option<string>

  function Encode(e: Encoding, j: Json): Option<string> { e(j) }

  /** Different values have different encodings, and none holds a NUL. */
  ghost predicate Faithful(e: Encoding) {
    && (forall a, b :: Encode(e, a).Some? && Encode(e, a) == Encode(e, b) ==> a == b)
    && forall a :: Encode(e, a).Some? ==> '\0' !in Encode(e, a).value
  }

  const KEEP_EVERYTHING := "keepEverything"
  const KEEP_MATCHES := "keepMatches"
  const KEEP_NON_MATCHES := "keepNonMatches"

  predicate KeepsLeft(mode: string) { mode == KEEP_EVERYTHING || mode == "enrichInput1" || mode == "enrichInput2" }

  // ----- Keys -------------------------------------------------------------

  function FieldValue(item: Item, field: string): Json { Get(Obj(item.json), Split(field)) }

  predicate CanMatch(e: Encoding, item: Item, field: string) {
    FieldValue(item, field) != Null && Encode(e, FieldValue(item, field)).Some?
  }

  function Parts(e: Encoding, item: Item, fields: seq<string>): (parts: seq<string>)
    requires forall k :: 0 <= k < |fields| ==> CanMatch(e, item, fields[k])
    ensures |parts| == |fields|
    ensures forall k :: 0 <= k < |fields| ==> Some(parts[k]) == Encode(e, FieldValue(item, fields[k]))
  {
    seq(|fields|,
      k requires 0 <= k < |fields| && CanMatch(e, item, fields[k]) => Encode(e, FieldValue(item, fields[k])).value)
  }

  function JoinNul(parts: seq<string>): string {
    if parts == [] then "" else if |parts| == 1 then parts[0] else parts[0] + "\0" + JoinNul(parts[1..])
  }

  /** The key of an item, unless one of the fields is missing. */
  function KeyOf(e: Encoding, item: Item, fields: seq<string>): Option<string> {
    if forall k :: 0 <= k < |fields| ==> CanMatch(e, item, fields[k]) then Some(JoinNul(Parts(e, item, fields)))
    else None
  }

  method MatchKey(e: Encoding, item: Item, fields: seq<string>) returns (key: Option<string>)
    ensures key == KeyOf(e, item, fields)
  {
    var parts: seq<string> := [];
    for k := 0 to |fields|
      invariant |parts| == k && forall i :: 0 <= i < k ==> CanMatch(e, item, fields[i])
      invariant forall i :: 0 <= i < k ==> Some(parts[i]) == Encode(e, FieldValue(item, fields[i]))
    {
      var value := ItemPath(item.json, fields[k]);
      assert value == FieldValue(item, fields[k]);
      if value == Null {
        return None;
      }
      var encoded := Encode(e, value);
      if encoded.None? {
        return None;
      }
      parts := parts + [encoded.value];
    }
    assert parts == Parts(e, item, fields);
    key := Some(JoinNul(parts));
  }

  lemma SplitAtNul(a: string, x: string, b: string, y: string)
    requires '\0' !in a && '\0' !in b && a + "\0" + x == b + "\0" + y
    ensures a == b && x == y
  {
    var s := a + "\0" + x;
    assert s[|a|] == '\0' && s[|b|] == '\0';
    assert forall i :: 0 <= i < |a| ==> s[i] == a[i] != '\0';
    assert forall i :: 0 <= i < |b| ==> s[i] == b[i] != '\0';
    assert s[..|a|] == a && s[..|b|] == b && s[|a| + 1..] == x && s[|b| + 1..] == y;
  }

  /** Joined with NULs, equally many NUL-free parts stay apart. */
  lemma {:induction false} JoinNulInjective(a: seq<string>, b: seq<string>)
    requires |a| == |b| && JoinNul(a) == JoinNul(b)
    requires forall k :: 0 <= k < |a| ==> '\0' !in a[k] && '\0' !in b[k]
    ensures a == b
    decreases |a|
  {
    if |a| == 1 {
      assert a == [a[0]] && b == [b[0]];
    } else if |a| > 1 {
      SplitAtNul(a[0], JoinNul(a[1..]), b[0], JoinNul(b[1..]));
      JoinNulInjective(a[1..], b[1..]);
      assert a == [a[0]] + a[1..] && b == [b[0]] + b[1..];
    }
  }

  /** Two items match when every field is there in both, with one value. */
  predicate Matches(e: Encoding, l: Item, r: Item, fields: seq<string>) {
    forall k :: 0 <= k < |fields| ==> CanMatch(e, l, fields[k]) && FieldValue(l, fields[k]) == FieldValue(r, fields[k])
  }

  /** Items match when at every field's path both hold one and the same value, which is not null and can be encoded. */
  lemma MatchesIff(e: Encoding, l: Item, r: Item, fields: seq<string>)
    ensures Matches(e, l, r, fields) <==>
      forall k :: 0 <= k < |fields| ==>
        var a, b := Get(Obj(l.json), Split(fields[k])), Get(Obj(r.json), Split(fields[k]));
        a == b != Null && Encode(e, a).Some?
  {
    hide Get, Split;
    if forall k :: 0 <= k < |fields| ==>
      var a, b := Get(Obj(l.json), Split(fields[k])), Get(Obj(r.json), Split(fields[k]));
      a == b != Null && Encode(e, a).Some?
    {
      forall k | 0 <= k < |fields|
        ensures CanMatch(e, l, fields[k]) && FieldValue(l, fields[k]) == FieldValue(r, fields[k])
      {
      }
    }
    if Matches(e, l, r, fields) {
      forall k | 0 <= k < |fields|
        ensures var a, b := Get(Obj(l.json), Split(fields[k])), Get(Obj(r.json), Split(fields[k]));
          a == b != Null && Encode(e, a).Some?
      {
        assert CanMatch(e, l, fields[k]);
      }
    }
  }

  /** An item without a value at one of the fields has no key and matches nothing, on either side. */
  lemma MissingFieldMatchesNothing(e: Encoding, item: Item, fields: seq<string>, k: nat)
    requires k < |fields| && Get(Obj(item.json), Split(fields[k])) == Null
    ensures KeyOf(e, item, fields) == None
    ensures forall other: Item :: !Matches(e, item, other, fields) && !Matches(e, other, item, fields)
  {
    hide Get, Split;
    assert !CanMatch(e, item, fields[k]);
    forall other: Item ensures !Matches(e, item, other, fields) && !Matches(e, other, item, fields) {
      MatchesIff(e, item, other, fields);
      MatchesIff(e, other, item, fields);
    }
  }

  lemma KeysAgreeIffMatch(e: Encoding, l: Item, r: Item, fields: seq<string>)
    requires Faithful(e)
    ensures KeyOf(e, l, fields).Some? && KeyOf(e, l, fields) == KeyOf(e, r, fields) <==> Matches(e, l, r, fields)
  {
    hide FieldValue;
    if KeyOf(e, l, fields).Some? && KeyOf(e, l, fields) == KeyOf(e, r, fields) {
      var a, b := Parts(e, l, fields), Parts(e, r, fields);
      JoinNulInjective(a, b);
      forall k | 0 <= k < |fields| ensures FieldValue(l, fields[k]) == FieldValue(r, fields[k]) {
        assert a[k] == b[k];
      }
    }
    if Matches(e, l, r, fields) {
      assert forall k :: 0 <= k < |fields| ==> CanMatch(e, r, fields[k]);
      assert Parts(e, l, fields) == Parts(e, r, fields);
    }
  }

  // ----- The join by nested loops -------------------------------------------

  /** The union of both, the right item's fields and attachments taking the place of the left one's of the same name. */
  function MergePair(l: Item, r: Item): Item { Item(l.json + r.json, l.binary + r.binary, None) }

  /** A union of maps in which the last of the parts with a key has its way. */
  ghost predicate LastWins<V>(all: map<string, V>, parts: seq<map<string, V>>) {
    && (forall key :: key in all <==> exists k :: 0 <= k < |parts| && key in parts[k])
    && forall key, k :: (0 <= k < |parts| && key in parts[k] && forall i :: k < i < |parts| ==> key !in parts[i]) ==>
         key in all && all[key] == parts[k][key]
  }

  lemma OneMorePart<V>(all: map<string, V>, parts: seq<map<string, V>>, last: map<string, V>)
    requires LastWins(all, parts)
    ensures LastWins(all + last, parts + [last])
  {
    var longer := parts + [last];
    forall key ensures key in all + last <==> exists k :: 0 <= k < |longer| && key in longer[k] {
      if key in all {
        var k :| 0 <= k < |parts| && key in parts[k];
        assert key in longer[k];
      }
      if key in last {
        assert key in longer[|parts|];
      }
    }
    forall key, k | 0 <= k < |longer| && key in longer[k] && forall i :: k < i < |longer| ==> key !in longer[i]
      ensures key in all + last && (all + last)[key] == longer[k][key]
    {
      if k < |parts| {
        assert key !in longer[|parts|];
        assert forall i :: k < i < |parts| ==> parts[i] == longer[i];
      }
    }
  }

  ghost function JsonsOf(items: seq<Item>): (parts: seq<Object>)
    ensures |parts| == |items| && forall k :: 0 <= k < |items| ==> parts[k] == items[k].json
  {
    seq(|items|, k requires 0 <= k < |items| => items[k].json)
  }

  ghost function BinariesOf(items: seq<Item>): (parts: seq<map<string, string>>)
    ensures |parts| == |items| && forall k :: 0 <= k < |items| ==> parts[k] == items[k].binary
  {
    seq(|items|, k requires 0 <= k < |items| => items[k].binary)
  }

  method MergeItems(items: seq<Item>) returns (merged: Item)
    ensures |items| == 2 ==> merged == MergePair(items[0], items[1])
    ensures merged.paired == None
    ensures LastWins(merged.json, JsonsOf(items)) && LastWins(merged.binary, BinariesOf(items))
  {
    hide LastWins, JsonsOf, BinariesOf;
    merged := Item(map[], map[], None);
    NoParts(items);
    for n := 0 to |items|
      invariant merged.paired == None
      invariant n == 0 ==> merged == Item(map[], map[], None)
      invariant n == 1 ==> merged == Item(items[0].json, items[0].binary, None)
      invariant n == 2 ==> merged == MergePair(items[0], items[1])
      invariant LastWins(merged.json, JsonsOf(items[..n])) && LastWins(merged.binary, BinariesOf(items[..n]))
    {
      OneMorePart(merged.json, JsonsOf(items[..n]), items[n].json);
      OneMorePart(merged.binary, BinariesOf(items[..n]), items[n].binary);
      MorePartsOf(items, n);
      merged := Item(merged.json + items[n].json, merged.binary + items[n].binary, None);
    }
    assert items[..|items|] == items;
  }

  lemma NoParts(items: seq<Item>)
    ensures LastWins(map[], JsonsOf(items[..0])) && LastWins(map[], BinariesOf(items[..0]))
  {
  }

  lemma MorePartsOf(items: seq<Item>, n: nat)
    requires n < |items|
    ensures JsonsOf(items[..n + 1]) == JsonsOf(items[..n]) + [items[n].json]
    ensures BinariesOf(items[..n + 1]) == BinariesOf(items[..n]) + [items[n].binary]
  {
  }

  /** The right items that match a left one, in their own order. */
  function Partners(e: Encoding, l: Item, right: seq<Item>, fields: seq<string>): seq<Item> {
    if right == [] then [] else
    var last := right[|right| - 1];
    Partners(e, l, right[..|right| - 1], fields) + if Matches(e, l, last, fields) then [last] else []
  }

  function Merges(l: Item, partners: seq<Item>): (merged: seq<Item>)
    ensures |merged| == |partners| && forall k :: 0 <= k < |partners| ==> merged[k] == MergePair(l, partners[k])
  {
    seq(|partners|, k requires 0 <= k < |partners| => MergePair(l, partners[k]))
  }

  /** What one left item contributes. */
  function FromLeft(l: Item, partners: seq<Item>, mode: string): seq<Item> {
    if partners != [] then Merges(l, partners) else if KeepsLeft(mode) then [l] else []
  }

  function LeftMajor(e: Encoding, left: seq<Item>, right: seq<Item>, fields: seq<string>, mode: string): seq<Item> {
    if left == [] then [] else
    var last := left[|left| - 1];
    LeftMajor(e, left[..|left| - 1], right, fields, mode) + FromLeft(last, Partners(e, last, right, fields), mode)
  }

  predicate Unmatched(e: Encoding, l: Item, right: seq<Item>, fields: seq<string>) {
    forall k :: 0 <= k < |right| ==> !Matches(e, l, right[k], fields)
  }

  predicate Unsought(e: Encoding, left: seq<Item>, r: Item, fields: seq<string>) {
    forall k :: 0 <= k < |left| ==> !Matches(e, left[k], r, fields)
  }

  function LeftAlone(e: Encoding, left: seq<Item>, right: seq<Item>, fields: seq<string>): seq<Item> {
    if left == [] then [] else
    var last := left[|left| - 1];
    LeftAlone(e, left[..|left| - 1], right, fields) + if Unmatched(e, last, right, fields) then [last] else []
  }

  function RightAlone(e: Encoding, left: seq<Item>, right: seq<Item>, fields: seq<string>): seq<Item> {
    if right == [] then [] else
    var last := right[|right| - 1];
    RightAlone(e, left, right[..|right| - 1], fields) + if Unsought(e, left, last, fields) then [last] else []
  }

  /** The join of every left item with every right item. */
  function Nested(e: Encoding, left: seq<Item>, right: seq<Item>, fields: seq<string>, mode: string): seq<Item> {
    if mode == KEEP_NON_MATCHES then LeftAlone(e, left, right, fields) + RightAlone(e, left, right, fields)
    else
      LeftMajor(e, left, right, fields, mode) +
      if mode == KEEP_EVERYTHING then RightAlone(e, left, right, fields) else []
  }

  // ----- The indexed join -----------------------------------------------------

  /** The right items with a key, in their own order. */
  function WithKey(e: Encoding, right: seq<Item>, fields: seq<string>, key: string): seq<Item> {
    if right == [] then [] else
    var last := right[|right| - 1];
    WithKey(e, right[..|right| - 1], fields, key) + if KeyOf(e, last, fields) == Some(key) then [last] else []
  }

  lemma {:induction false} PartnersByKey(e: Encoding, l: Item, right: seq<Item>, fields: seq<string>)
    requires Faithful(e)
    ensures Partners(e, l, right, fields) ==
      if KeyOf(e, l, fields).None? then [] else WithKey(e, right, fields, KeyOf(e, l, fields).value)
    decreases |right|
  {
    hide KeyOf, Matches;
    if right != [] {
      PartnersByKey(e, l, right[..|right| - 1], fields);
      KeysAgreeIffMatch(e, l, right[|right| - 1], fields);
    }
  }

  lemma {:induction false} NoPartnersIff(e: Encoding, l: Item, right: seq<Item>, fields: seq<string>)
    ensures Partners(e, l, right, fields) == [] <==> Unmatched(e, l, right, fields)
    ensures forall k :: 0 <= k < |right| && Matches(e, l, right[k], fields) ==>
      right[k] in Partners(e, l, right, fields)
    decreases |right|
  {
    hide Matches;
    if right != [] {
      NoPartnersIff(e, l, right[..|right| - 1], fields);
    }
  }

  function Lookup(index: map<string, seq<Item>>, key: Option<string>): seq<Item> {
    if key.Some? && key.value in index then index[key.value] else []
  }

  method BuildIndex(e: Encoding, right: seq<Item>, fields: seq<string>) returns (index: map<string, seq<Item>>)
    requires Faithful(e)
    ensures forall l: Item :: Lookup(index, KeyOf(e, l, fields)) == Partners(e, l, right, fields)
  {
    hide KeyOf, Partners;
    index := map[];
    for k := 0 to |right|
      invariant forall key :: (if key in index then index[key] else []) == WithKey(e, right[..k], fields, key)
    {
      assert right[..k + 1][..k] == right[..k];
      var key := MatchKey(e, right[k], fields);
      if key.None? {
        continue;
      }
      index := index[key.value := (if key.value in index then index[key.value] else []) + [right[k]]];
    }
    assert right[..|right|] == right;
    forall l: Item ensures Lookup(index, KeyOf(e, l, fields)) == Partners(e, l, right, fields) {
      PartnersByKey(e, l, right, fields);
    }
  }

  /** A right item is sought when a left item that found partners has its key. */
  lemma SoughtByKey(e: Encoding, left: seq<Item>, right: seq<Item>, j: nat, fields: seq<string>, sought: set<string>)
    requires Faithful(e) && j < |right|
    requires forall key :: key in sought <==>
      exists k :: 0 <= k < |left| && KeyOf(e, left[k], fields) == Some(key) && Partners(e, left[k], right, fields) != []
    ensures Unsought(e, left, right[j], fields) <==>
      KeyOf(e, right[j], fields).None? || KeyOf(e, right[j], fields).value !in sought
  {
    hide KeyOf, Matches, Partners;
    forall k | 0 <= k < |left|
      ensures Matches(e, left[k], right[j], fields) <==>
        KeyOf(e, left[k], fields).Some? && KeyOf(e, left[k], fields) == KeyOf(e, right[j], fields)
      ensures Matches(e, left[k], right[j], fields) ==> Partners(e, left[k], right, fields) != []
    {
      KeysAgreeIffMatch(e, left[k], right[j], fields);
      NoPartnersIff(e, left[k], right, fields);
    }
  }

  method NonMatches(e: Encoding, left: seq<Item>, right: seq<Item>, fields: seq<string>, index: map<string, seq<Item>>)
    returns (kept: seq<Item>)
    requires Faithful(e) && forall l: Item :: Lookup(index, KeyOf(e, l, fields)) == Partners(e, l, right, fields)
    ensures kept == LeftAlone(e, left, right, fields) + RightAlone(e, left, right, fields)
  {
    hide KeyOf, Matches, Partners, Unmatched, Unsought;
    var matchedRight: set<string> := {};
    for k := 0 to |left|
      invariant Sought(e, left[..k], right, fields, matchedRight)
    {
      var key := MatchKey(e, left[k], fields);
      MoreSought(e, left, right, fields, matchedRight, k);
      if key.Some? && Lookup(index, key) != [] {
        matchedRight := matchedRight + {key.value};
      }
    }
    assert left[..|left|] == left;
    kept := [];
    for k := 0 to |left|
      invariant kept == LeftAlone(e, left[..k], right, fields)
    {
      assert left[..k + 1][..k] == left[..k];
      NoPartnersIff(e, left[k], right, fields);
      var key := MatchKey(e, left[k], fields);
      if Lookup(index, key) == [] {
        kept := kept + [left[k]];
      }
    }
    var alone := UnsoughtRight(e, left, right, fields, matchedRight);
    kept := kept + alone;
  }

  ghost predicate Sought(e: Encoding, left: seq<Item>, right: seq<Item>, fields: seq<string>, keys: set<string>) {
    forall key :: key in keys <==>
      exists k :: 0 <= k < |left| && KeyOf(e, left[k], fields) == Some(key) && Partners(e, left[k], right, fields) != []
  }

  lemma MoreSought(e: Encoding, left: seq<Item>, right: seq<Item>, fields: seq<string>, keys: set<string>, k: nat)
    requires k < |left| && Sought(e, left[..k], right, fields, keys)
    ensures var key := KeyOf(e, left[k], fields); var found := key.Some? && Partners(e, left[k], right, fields) != [];
      Sought(e, left[..k + 1], right, fields, if found then keys + {key.value} else keys)
  {
    hide KeyOf, Partners;
    var all, before := left[..k + 1], left[..k];
    assert all[k] == left[k] && forall i :: 0 <= i < k ==> all[i] == before[i];
  }

  /** The right items no left item looked up, in their own order. */
  method UnsoughtRight(e: Encoding, left: seq<Item>, right: seq<Item>, fields: seq<string>, matchedRight: set<string>)
    returns (alone: seq<Item>)
    requires Faithful(e) && Sought(e, left, right, fields, matchedRight)
    ensures alone == RightAlone(e, left, right, fields)
  {
    hide KeyOf, Matches, Partners, Unsought;
    alone := [];
    for k := 0 to |right|
      invariant alone == RightAlone(e, left, right[..k], fields)
    {
      assert right[..k + 1][..k] == right[..k];
      SoughtByKey(e, left, right, k, fields, matchedRight);
      var key := MatchKey(e, right[k], fields);
      if key.None? || key.value !in matchedRight {
        alone := alone + [right[k]];
      }
    }
    assert right[..|right|] == right;
  }

  /** The indexed join is the join by nested loops, item for item and in the same order. */
  method JoinOnFields(e: Encoding, left: seq<Item>, right: seq<Item>, fields: seq<string>, mode: string)
    returns (combined: seq<Item>)
    requires Faithful(e)
    ensures combined == Nested(e, left, right, fields, mode)
  {
    hide KeyOf, Matches, Partners, Unsought, Unmatched, FromLeft, LeftAlone, RightAlone;
    var index := BuildIndex(e, right, fields);
    if mode == KEEP_NON_MATCHES {
      combined := NonMatches(e, left, right, fields, index);
      return;
    }
    combined := [];
    var matchedRight: set<string> := {};
    for k := 0 to |left|
      invariant combined == LeftMajor(e, left[..k], right, fields, mode)
      invariant Sought(e, left[..k], right, fields, matchedRight)
    {
      assert left[..k + 1][..k] == left[..k];
      MoreSought(e, left, right, fields, matchedRight, k);
      var key := MatchKey(e, left[k], fields);
      var partners := Lookup(index, key);
      LeftGives(left[k], partners, mode);
      if partners == [] {
        if KeepsLeft(mode) {
          combined := combined + [left[k]];
        }
        continue;
      }
      matchedRight := matchedRight + {key.value};
      combined := MergeEach(left[k], partners, combined);
    }
    assert left[..|left|] == left;
    if mode == KEEP_EVERYTHING {
      var alone := UnsoughtRight(e, left, right, fields, matchedRight);
      combined := combined + alone;
    }
  }

  method MergeEach(l: Item, partners: seq<Item>, combined: seq<Item>) returns (r: seq<Item>)
    ensures r == combined + Merges(l, partners)
  {
    hide MergePair;
    r := combined;
    for i := 0 to |partners|
      invariant r == combined + Merges(l, partners)[..i]
    {
      var merged := MergeItems([l, partners[i]]);
      r := r + [merged];
    }
  }

  lemma LeftGives(l: Item, partners: seq<Item>, mode: string)
    ensures partners == [] ==> FromLeft(l, partners, mode) == if KeepsLeft(mode) then [l] else []
    ensures partners != [] ==> FromLeft(l, partners, mode) == Merges(l, partners)
  {
  }

  // ----- What a join keeps ------------------------------------------------------

  /** The names of the modes. */
  lemma ModeNames()
    ensures KEEP_EVERYTHING == "keepEverything" && KEEP_MATCHES == "keepMatches" && KEEP_NON_MATCHES == "keepNonMatches"
  {
  }

  /** Keeping the matches gives nothing for a left item without a partner, and keeping the others nothing with one. */
  lemma {:induction false} ModesKeep(e: Encoding, left: seq<Item>, right: seq<Item>, fields: seq<string>)
    ensures forall l <- left :: Unmatched(e, l, right, fields) ==> l in Nested(e, left, right, fields, "keepNonMatches")
    ensures forall r <- right :: Unsought(e, left, r, fields) ==> r in Nested(e, left, right, fields, "keepNonMatches")
    ensures forall item <- Nested(e, left, right, fields, "keepNonMatches") ::
      (item in left && Unmatched(e, item, right, fields)) || (item in right && Unsought(e, left, item, fields))
    ensures forall item <- Nested(e, left, right, fields, "keepMatches") ::
      exists l, r :: l in left && r in right && Matches(e, l, r, fields) && item == MergePair(l, r)
  {
    hide Unmatched, Unsought, Matches, MergePair, LeftMajor, LeftAlone, RightAlone;
    ModesDiffer();
    ModeNames();
    LeftAloneIs(e, left, right, fields);
    RightAloneIs(e, left, right, fields);
    MatchesAreMerged(e, left, right, fields);
  }

  lemma {:induction false} LeftAloneIs(e: Encoding, left: seq<Item>, right: seq<Item>, fields: seq<string>)
    ensures forall l :: l in LeftAlone(e, left, right, fields) <==> l in left && Unmatched(e, l, right, fields)
    decreases |left|
  {
    hide Unmatched;
    if left != [] {
      LeftAloneIs(e, left[..|left| - 1], right, fields);
      assert left == left[..|left| - 1] + [left[|left| - 1]];
    }
  }

  lemma {:induction false} RightAloneIs(e: Encoding, left: seq<Item>, right: seq<Item>, fields: seq<string>)
    ensures forall r :: r in RightAlone(e, left, right, fields) <==> r in right && Unsought(e, left, r, fields)
    decreases |right|
  {
    hide Unsought;
    if right != [] {
      RightAloneIs(e, left, right[..|right| - 1], fields);
      assert right == right[..|right| - 1] + [right[|right| - 1]];
    }
  }

  lemma {:induction false} MatchesAreMerged(e: Encoding, left: seq<Item>, right: seq<Item>, fields: seq<string>)
    ensures forall item <- LeftMajor(e, left, right, fields, KEEP_MATCHES) ::
      exists l, r :: l in left && r in right && Matches(e, l, r, fields) && item == MergePair(l, r)
    decreases |left|
  {
    hide Matches, MergePair, Partners;
    if left != [] {
      var before, last := left[..|left| - 1], left[|left| - 1];
      MatchesAreMerged(e, before, right, fields);
      ModesDiffer();
      var partners := Partners(e, last, right, fields);
      PartnersMatch(e, last, right, fields);
      forall item | item in LeftMajor(e, left, right, fields, KEEP_MATCHES)
        ensures exists l, r :: l in left && r in right && Matches(e, l, r, fields) && item == MergePair(l, r)
      {
        if item in LeftMajor(e, before, right, fields, KEEP_MATCHES) {
          var l, r :| l in before && r in right && Matches(e, l, r, fields) && item == MergePair(l, r);
          assert l in left;
        } else {
          assert item in FromLeft(last, partners, KEEP_MATCHES);
          var k :| 0 <= k < |partners| && Merges(last, partners)[k] == item;
          assert partners[k] in partners;
        }
      }
    }
  }

  lemma {:induction false} PartnersMatch(e: Encoding, l: Item, right: seq<Item>, fields: seq<string>)
    ensures forall r <- Partners(e, l, right, fields) :: r in right && Matches(e, l, r, fields)
    decreases |right|
  {
    hide Matches;
    if right != [] {
      PartnersMatch(e, l, right[..|right| - 1], fields);
      assert right == right[..|right| - 1] + [right[|right| - 1]];
    }
  }

  /** Keeping everything is keeping the matches and the non-matches, as multisets. */
  lemma EverythingIsMatchesAndNonMatches(e: Encoding, left: seq<Item>, right: seq<Item>, fields: seq<string>)
    ensures multiset(Nested(e, left, right, fields, KEEP_EVERYTHING)) ==
      multiset(Nested(e, left, right, fields, KEEP_MATCHES)) +
        multiset(Nested(e, left, right, fields, KEEP_NON_MATCHES))
  {
    hide LeftMajor, LeftAlone, RightAlone;
    LeftSplits(e, left, right, fields, KEEP_EVERYTHING);
    assert KEEP_MATCHES != KEEP_EVERYTHING && KEEP_MATCHES != KEEP_NON_MATCHES &&
      KEEP_EVERYTHING != KEEP_NON_MATCHES by {
      ModesDiffer();
    }
  }

  lemma ModesDiffer()
    ensures KEEP_MATCHES != KEEP_EVERYTHING && KEEP_MATCHES != KEEP_NON_MATCHES && KEEP_EVERYTHING != KEEP_NON_MATCHES
    ensures !KeepsLeft(KEEP_MATCHES)
    ensures "enrichInput1" != KEEP_EVERYTHING && "enrichInput1" != KEEP_NON_MATCHES
    ensures "enrichInput2" != KEEP_EVERYTHING && "enrichInput2" != KEEP_NON_MATCHES
  {
    assert |KEEP_MATCHES| == 11 && |KEEP_EVERYTHING| == 14 && |KEEP_NON_MATCHES| == 14;
    assert KEEP_EVERYTHING[4] == 'E' && KEEP_NON_MATCHES[4] == 'N';
    assert |"enrichInput1"| == 12 && |"enrichInput2"| == 12;
  }

  /** A mode that keeps unmatched left items adds exactly those to the matches. */
  lemma {:induction false} LeftSplits(e: Encoding, left: seq<Item>, right: seq<Item>, fields: seq<string>, mode: string)
    requires KeepsLeft(mode)
    ensures multiset(LeftMajor(e, left, right, fields, mode)) ==
      multiset(LeftMajor(e, left, right, fields, KEEP_MATCHES)) + multiset(LeftAlone(e, left, right, fields))
    decreases |left|
  {
    hide KeepsLeft, Partners, Unmatched;
    if left != [] {
      LeftSplits(e, left[..|left| - 1], right, fields, mode);
      NoPartnersIff(e, left[|left| - 1], right, fields);
      ModesDiffer();
    }
  }

  /**
   Both enriching modes give the same items in the same order: the matches and
   the left items without a partner. The right items without one are all that
   they lack of keeping everything; the second keeps the left side too.
   */
  lemma EnrichModesAgree(e: Encoding, left: seq<Item>, right: seq<Item>, fields: seq<string>)
    ensures var enriched := Nested(e, left, right, fields, "enrichInput1");
      && enriched == Nested(e, left, right, fields, "enrichInput2")
      && multiset(enriched) == multiset(Nested(e, left, right, fields, KEEP_MATCHES)) +
        multiset(LeftAlone(e, left, right, fields))
      && multiset(Nested(e, left, right, fields, KEEP_EVERYTHING)) ==
        multiset(enriched) + multiset(RightAlone(e, left, right, fields))
  {
    hide LeftMajor, LeftAlone, RightAlone;
    EnrichKeepsLeft(e, left, right, fields);
    LeftSplits(e, left, right, fields, "enrichInput1");
    LeftSplits(e, left, right, fields, KEEP_EVERYTHING);
    ModesDiffer();
  }

  lemma {:induction false} EnrichKeepsLeft(e: Encoding, left: seq<Item>, right: seq<Item>, fields: seq<string>)
    ensures LeftMajor(e, left, right, fields, "enrichInput1") == LeftMajor(e, left, right, fields, "enrichInput2")
    decreases |left|
  {
    hide Partners;
    if left != [] {
      EnrichKeepsLeft(e, left[..|left| - 1], right, fields);
    }
  }

  lemma {:induction false} LeftIsKept(e: Encoding, left: seq<Item>, right: seq<Item>, fields: seq<string>, i: nat)
    requires i < |left|
    ensures var all := LeftMajor(e, left, right, fields, KEEP_EVERYTHING);
      && (Unmatched(e, left[i], right, fields) ==> left[i] in all)
      && forall k :: 0 <= k < |right| && Matches(e, left[i], right[k], fields) ==> MergePair(left[i], right[k]) in all
    decreases |left|
  {
    hide Partners, Unmatched, Matches, MergePair;
    var last := left[|left| - 1];
    if i == |left| - 1 {
      var partners := Partners(e, last, right, fields);
      NoPartnersIff(e, last, right, fields);
      forall k | 0 <= k < |right| && Matches(e, last, right[k], fields)
        ensures MergePair(last, right[k]) in Merges(last, partners)
      {
        var at :| 0 <= at < |partners| && partners[at] == right[k];
        assert Merges(last, partners)[at] == MergePair(last, right[k]);
      }
    } else {
      LeftIsKept(e, left[..|left| - 1], right, fields, i);
    }
  }

  /** Keeping everything, each left item is there: merged with every partner, or as it was. */
  lemma LeftRepresented(e: Encoding, left: seq<Item>, right: seq<Item>, fields: seq<string>, i: nat)
    requires i < |left|
    ensures var all := Nested(e, left, right, fields, KEEP_EVERYTHING);
      && (Unmatched(e, left[i], right, fields) ==> left[i] in all)
      && forall k :: 0 <= k < |right| && Matches(e, left[i], right[k], fields) ==> MergePair(left[i], right[k]) in all
  {
    hide LeftMajor, RightAlone, Unmatched, Matches, MergePair;
    ModesDiffer();
    LeftIsKept(e, left, right, fields, i);
  }

  /** And so is each right item. */
  lemma RightRepresented(e: Encoding, left: seq<Item>, right: seq<Item>, fields: seq<string>, j: nat)
    requires j < |right|
    ensures var all := Nested(e, left, right, fields, KEEP_EVERYTHING);
      || right[j] in all
      || exists i :: 0 <= i < |left| && Matches(e, left[i], right[j], fields) && MergePair(left[i], right[j]) in all
  {
    hide Matches, MergePair, LeftMajor, RightAlone;
    ModesDiffer();
    if Unsought(e, left, right[j], fields) {
      AloneIsKept(e, left, right, fields, j);
    } else {
      var i :| 0 <= i < |left| && Matches(e, left[i], right[j], fields);
      LeftRepresented(e, left, right, fields, i);
    }
  }

  lemma {:induction false} AloneIsKept(e: Encoding, left: seq<Item>, right: seq<Item>, fields: seq<string>, j: nat)
    requires j < |right| && Unsought(e, left, right[j], fields)
    ensures right[j] in RightAlone(e, left, right, fields)
    decreases |right|
  {
    hide Unsought;
    if j < |right| - 1 {
      AloneIsKept(e, left, right[..|right| - 1], fields, j);
    }
  }

  // ----- Several inputs -----------------------------------------------------------

  /** The join of the first n inputs, from left to right. */
  function JoinAll(e: Encoding, streams: seq<seq<Item>>, fields: seq<string>, mode: string, n: nat): seq<Item>
    requires n <= |streams|
  {
    if n == 0 then [] else if n == 1 then streams[0]
    else Nested(e, JoinAll(e, streams, fields, mode, n - 1), streams[n - 1], fields, mode)
  }

  /** One input is itself, and each further one is joined on the right of those before it. */
  lemma JoinsInTurn(e: Encoding, streams: seq<seq<Item>>, next: seq<Item>, fields: seq<string>, mode: string)
    ensures JoinAll(e, [], fields, mode, 0) == [] && JoinAll(e, [next], fields, mode, 1) == next
    ensures streams != [] ==>
      JoinAll(e, streams + [next], fields, mode, |streams| + 1) ==
        Nested(e, JoinAll(e, streams, fields, mode, |streams|), next, fields, mode)
  {
    JoinPrefix(e, streams, [next], fields, mode, |streams|);
  }

  lemma {:induction false} JoinPrefix(e: Encoding, streams: seq<seq<Item>>, more: seq<seq<Item>>, fields: seq<string>,
                                      mode: string, n: nat)
    requires n <= |streams|
    ensures JoinAll(e, streams + more, fields, mode, n) == JoinAll(e, streams, fields, mode, n)
    decreases n
  {
    hide Nested;
    if n > 1 {
      JoinPrefix(e, streams, more, fields, mode, n - 1);
    }
  }

  method MergeByFields(e: Encoding, streams: seq<seq<Item>>, fields: seq<string>, mode: string)
    returns (combined: seq<Item>)
    requires Faithful(e)
    ensures combined == JoinAll(e, streams, fields, mode, |streams|)
  {
    hide Nested;
    if streams == [] {
      return [];
    }
    combined := streams[0];
    for k := 1 to |streams|
      invariant combined == JoinAll(e, streams, fields, mode, k)
    {
      combined := JoinOnFields(e, combined, streams[k], fields, mode);
    }
  }
}
