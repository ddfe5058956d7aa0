/** Searching and splitting text, and texts that a delimiter cannot occur in. */
module MimeText {
  import opened Wrappers

  const CRLF := "\r\n"

  predicate Occurs(s: string, d: string, k: nat) { k + |d| <= |s| && s[k..k + |d|] == d }

  lemma OccursAt(s: string, d: string, k: nat, i: nat)
    requires Occurs(s, d, k) && i < |d|
    ensures s[k + i] == d[i]
  {
    assert s[k..k + |d|][i] == s[k + i];
  }

  /** One differing character rules an occurrence out. */
  lemma Mismatch(s: string, d: string, k: nat, i: nat)
    requires i < |d| && (k + i < |s| ==> s[k + i] != d[i])
    ensures !Occurs(s, d, k)
  {
    if Occurs(s, d, k) {
      OccursAt(s, d, k, i);
      assert false;
    }
  }

  lemma PrefixOccurs(s: string, p: string, d: string, k: nat)
    requires p <= d
    ensures Occurs(s, d, k) ==> Occurs(s, p, k)
  {
    if Occurs(s, d, k) {
      assert s[k..k + |p|] == s[k..k + |d|][..|p|];
    }
  }

  /** The delimiter d occurs nowhere in s. */
  ghost predicate Free(s: string, d: string) { forall k: nat :: !Occurs(s, d, k) }

  /** Where d first occurs in s at or after k. */
  function IndexFrom(s: string, d: string, k: nat): (r: Option<nat>)
    requires k <= |s|
    ensures r.Some? ==> k <= r.value && Occurs(s, d, r.value)
    decreases |s| - k
  {
    if Occurs(s, d, k) then Some(k)
    else if k < |s| then IndexFrom(s, d, k + 1)
    else None
  }

  lemma {:induction false} IndexIs(s: string, d: string, k: nat, n: nat)
    requires k <= n && Occurs(s, d, n)
    requires forall m: nat :: k <= m < n ==> !Occurs(s, d, m)
    ensures IndexFrom(s, d, k) == Some(n)
    decreases n - k
  {
    if k < n {
      IndexIs(s, d, k + 1, n);
    }
  }

  lemma {:induction false} NoIndex(s: string, d: string, k: nat)
    requires k <= |s| && Free(s, d)
    ensures IndexFrom(s, d, k) == None
    decreases |s| - k
  {
    if k < |s| {
      NoIndex(s, d, k + 1);
    }
  }

  /** The stretches of s between the occurrences of d, left to right. */
  function SplitOn(s: string, d: string): (r: seq<string>)
    requires d != ""
    ensures |r| >= 1 && forall p <- r :: |p| <= |s|
    ensures |r| > 1 ==> forall p <- r :: |p| < |s|
  {
    var k := IndexFrom(s, d, 0);
    if k.None? then [s] else [s[..k.value]] + SplitOn(s[k.value + |d|..], d)
  }

  /** The first stretch ends where d is put after a text it cannot begin in. */
  lemma SplitAtFirst(a: string, d: string, rest: string)
    requires d != "" && forall k: nat :: k < |a| ==> !Occurs(a + d + rest, d, k)
    ensures SplitOn(a + d + rest, d) == [a] + SplitOn(rest, d)
  {
    var s := a + d + rest;
    assert s[|a|..|a| + |d|] == d;
    IndexIs(s, d, 0, |a|);
    assert s[..|a|] == a && s[|a| + |d|..] == rest;
  }

  lemma SplitFree(s: string, d: string)
    requires d != "" && Free(s, d)
    ensures SplitOn(s, d) == [s]
  {
    NoIndex(s, d, 0);
  }

  // ----- Line breaks keep delimiters apart --------------------------------

  predicate NoBreak(s: string) { forall k :: 0 <= k < |s| ==> s[k] != '\r' && s[k] != '\n' }

  predicate EndsLine(s: string) { |s| >= 2 && s[|s| - 2..] == CRLF }

  /** A delimiter without breaks that occurs in a + b, where a ends a line, lies in a or in b. */
  lemma OccursInOne(a: string, b: string, d: string, k: nat)
    requires EndsLine(a) && NoBreak(d) && d != "" && Occurs(a + b, d, k)
    ensures if k < |a| then Occurs(a, d, k) else Occurs(b, d, k - |a|)
  {
    var s := a + b;
    if k < |a| {
      if |a| < k + |d| {
        assert s[|a| - 1] == a[|a| - 2..][1] == '\n';
        OccursAt(s, d, k, |a| - 1 - k);
        assert false;
      }
      assert s[k..k + |d|] == a[k..k + |d|];
    } else {
      assert s[k..k + |d|] == b[k - |a|..k - |a| + |d|];
    }
  }

  lemma FreeJoin(a: string, b: string, d: string)
    requires EndsLine(a) && NoBreak(d) && d != "" && Free(a, d) && Free(b, d)
    ensures Free(a + b, d)
  {
    forall k: nat ensures !Occurs(a + b, d, k) {
      if Occurs(a + b, d, k) {
        OccursInOne(a, b, d, k);
      }
    }
  }

  /** Ending a line adds no occurrence. */
  lemma FreeLine(a: string, d: string)
    requires NoBreak(d) && d != "" && Free(a, d)
    ensures Free(a + CRLF, d)
  {
    forall k: nat ensures !Occurs(a + CRLF, d, k) {
      if k + |d| <= |a| {
        assert (a + CRLF)[k..k + |d|] == a[k..k + |d|];
        assert !Occurs(a, d, k);
      } else if Occurs(a + CRLF, d, k) {
        OccursAt(a + CRLF, d, k, |d| - 1);
        assert false;
      }
    }
  }

  /** A delimiter that starts with a character s does not hold cannot occur in s. */
  lemma FreeOfFirst(s: string, d: string)
    requires d != "" && forall k :: 0 <= k < |s| ==> s[k] != d[0]
    ensures Free(s, d)
  {
    forall k: nat ensures !Occurs(s, d, k) {
      if Occurs(s, d, k) {
        OccursAt(s, d, k, 0);
        assert false;
      }
    }
  }
}
