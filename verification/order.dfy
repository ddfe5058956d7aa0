/** Strings in dictionary order, and the one ascending list of a set of them. */
module Order {

  predicate Less(a: string, b: string) {
    if b == "" then false
    else if a == "" then true
    else a[0] < b[0] || (a[0] == b[0] && Less(a[1..], b[1..]))
  }

  /** Dictionary order: the texts agree up to a place where the first ends or has the smaller character. */
  lemma {:induction false} LessIff(a: string, b: string)
    ensures Less(a, b) <==>
      exists n: nat :: n <= |a| && n < |b| && a[..n] == b[..n] && (n == |a| || a[n] < b[n])
    decreases |a|
  {
    if a != "" && b != "" {
      LessIff(a[1..], b[1..]);
      if Less(a, b) && a[0] == b[0] {
        var n: nat :|
          n <= |a| - 1 && n < |b| - 1 && a[1..][..n] == b[1..][..n] && (n == |a| - 1 || a[1..][n] < b[1..][n]);
        assert a[..n + 1] == [a[0]] + a[1..][..n] && b[..n + 1] == [b[0]] + b[1..][..n];
      }
      forall n: nat | n <= |a| && n < |b| && a[..n] == b[..n] && (n == |a| || a[n] < b[n])
        ensures Less(a, b)
      {
        if n > 0 {
          assert a[..n][0] == b[..n][0];
          assert a[1..][..n - 1] == a[..n][1..] == b[..n][1..] == b[1..][..n - 1];
        }
      }
    } else if a == "" && b != "" {
      assert a[..0] == b[..0];
    }
  }

  lemma {:induction false} LessTotal(a: string, b: string)
    ensures a != b ==> Less(a, b) || Less(b, a)
    ensures !(Less(a, b) && Less(b, a)) && !Less(a, a)
    decreases |a|
  {
    if a != "" {
      LessTotal(a[1..], a[1..]);
      if b != "" {
        LessTotal(a[1..], b[1..]);
        assert a == [a[0]] + a[1..] && b == [b[0]] + b[1..];
      }
    }
  }

  lemma {:induction false} LessTransitive(a: string, b: string, c: string)
    requires Less(a, b) && Less(b, c)
    ensures Less(a, c)
    decreases |a|
  {
    if a != "" && a[0] == b[0] == c[0] {
      LessTransitive(a[1..], b[1..], c[1..]);
    }
  }

  /** Strictly ascending, so without repetition. */
  predicate Ascending(s: seq<string>) { forall i, j :: 0 <= i < j < |s| ==> Less(s[i], s[j]) }

  predicate Lists(s: seq<string>, keys: set<string>) {
    (forall i :: 0 <= i < |s| ==> s[i] in keys) && (forall k <- keys :: k in s)
  }

  lemma {:induction false} AscendingUnique(a: seq<string>, b: seq<string>, keys: set<string>)
    requires Ascending(a) && Ascending(b) && Lists(a, keys) && Lists(b, keys)
    ensures a == b
    decreases |a|
  {
    if a == [] {
      if b != [] {
        FirstIsKey(b, keys);
        assert false;
      }
    } else {
      SameFirst(a, b, keys);
      DropFirst(a, keys);
      DropFirst(b, keys);
      AscendingUnique(a[1..], b[1..], keys - {a[0]});
      assert a == [a[0]] + a[1..] && b == [b[0]] + b[1..];
    }
  }

  lemma FirstIsKey(s: seq<string>, keys: set<string>)
    requires s != [] && Lists(s, keys)
    ensures s[0] in keys && keys != {}
  {
  }

  lemma SameFirst(a: seq<string>, b: seq<string>, keys: set<string>)
    requires a != [] && Ascending(a) && Ascending(b) && Lists(a, keys) && Lists(b, keys)
    ensures b != [] && a[0] == b[0]
  {
    assert a[0] in keys && a[0] in b;
    assert b[0] in keys && b[0] in a;
    LessTotal(a[0], b[0]);
  }

  lemma DropFirst(s: seq<string>, keys: set<string>)
    requires s != [] && Ascending(s) && Lists(s, keys)
    ensures Ascending(s[1..]) && Lists(s[1..], keys - {s[0]})
  {
    forall i | 0 <= i < |s| - 1 ensures s[1..][i] in keys - {s[0]} {
      LessTotal(s[0], s[i + 1]);
      assert Less(s[0], s[i + 1]);
    }
    forall k | k in keys - {s[0]} ensures k in s[1..] {
      assert k in s;
      var i :| 0 <= i < |s| && s[i] == k;
      assert s[1..][i - 1] == k;
    }
  }

  /** Puts a new key into its place. */
  function Insert(s: seq<string>, k: string): seq<string> {
    if s == [] || Less(k, s[0]) then [k] + s else [s[0]] + Insert(s[1..], k)
  }

  lemma {:induction false} InsertKeeps(s: seq<string>, k: string, keys: set<string>)
    requires Ascending(s) && Lists(s, keys) && k !in keys
    ensures Ascending(Insert(s, k)) && Lists(Insert(s, k), keys + {k})
    decreases |s|
  {
    var r := Insert(s, k);
    if s == [] || Less(k, s[0]) {
      forall j | 0 < j < |r| ensures Less(k, r[j]) {
        if j > 1 {
          LessTransitive(k, s[0], s[j - 1]);
        }
      }
      assert r[0] == k && forall x <- keys :: x in r;
    } else {
      DropFirst(s, keys);
      var rest := keys - {s[0]};
      InsertKeeps(s[1..], k, rest);
      var tail := Insert(s[1..], k);
      LessTotal(k, s[0]);
      assert s[0] in keys;
      forall j | 0 <= j < |tail| ensures Less(s[0], tail[j]) {
        if tail[j] != k {
          assert tail[j] in rest && tail[j] in s;
          var i :| 0 <= i < |s| && s[i] == tail[j];
          assert i > 0;
        }
      }
      assert forall x <- keys + {k} :: x == s[0] || x in tail;
    }
  }

  /** The ascending list of a set: it exists, and AscendingUnique says there is no other. */
  lemma {:induction false} SortedExists(keys: set<string>) returns (s: seq<string>)
    ensures Ascending(s) && Lists(s, keys)
    decreases |keys|
  {
    if keys == {} {
      s := [];
    } else {
      var k :| k in keys;
      s := SortedExists(keys - {k});
      InsertKeeps(s, k, keys - {k});
      s := Insert(s, k);
      assert keys - {k} + {k} == keys;
    }
  }

  ghost function Sorted(keys: set<string>): (s: seq<string>)
    ensures Ascending(s) && Lists(s, keys)
  {
    assert exists t :: Ascending(t) && Lists(t, keys) by {
      var t := SortedExists(keys);
    }
    var t :| Ascending(t) && Lists(t, keys);
    t
  }

  /** Collects the keys in whatever order the set gives them out, and sorts. */
  method SortKeys(keys: set<string>) returns (s: seq<string>)
    ensures s == Sorted(keys)
  {
    s := [];
    var rest := keys;
    while rest != {}
      invariant rest <= keys && Ascending(s) && Lists(s, keys - rest)
      decreases |rest|
    {
      var k :| k in rest;
      InsertKeeps(s, k, keys - rest);
      assert keys - rest + {k} == keys - (rest - {k});
      s := Insert(s, k);
      rest := rest - {k};
    }
    assert keys - rest == keys;
    AscendingUnique(s, Sorted(keys), keys);
  }
}
