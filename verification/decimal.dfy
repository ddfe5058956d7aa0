/** Numbers as Go prints them. */
module Decimals {
  function Decimal(n: nat): string { (if n < 10 then "" else Decimal(n / 10)) + [(n % 10) as char + '0'] }

  /** What a string of digits stands for, read from the left. */
  function Meant(s: string, before: nat): nat
    requires forall k :: 0 <= k < |s| ==> '0' <= s[k] <= '9'
  {
    if s == "" then before else Meant(s[1..], before * 10 + (s[0] - '0') as nat)
  }

  lemma {:induction false} NumberAppend(s: string, c: char, before: nat)
    requires (forall k :: 0 <= k < |s| ==> '0' <= s[k] <= '9') && '0' <= c <= '9'
    ensures Meant(s + [c], before) == Meant(s, before) * 10 + (c - '0') as nat
    decreases |s|
  {
    if s == "" {
      assert (s + [c])[1..] == "";
    } else {
      assert (s + [c])[1..] == s[1..] + [c];
      NumberAppend(s[1..], c, before * 10 + (s[0] - '0') as nat);
    }
  }

  /** A printed number is digits without a needless zero in front, and reads back. */
  lemma {:induction false} NumberOfDecimal(n: nat)
    ensures var s := Decimal(n);
      && s != "" && (forall k :: 0 <= k < |s| ==> '0' <= s[k] <= '9') && (s[0] == '0' ==> n == 0)
      && Meant(s, 0) == n
    decreases n
  {
    var c := (n % 10) as char + '0';
    if n >= 10 {
      NumberOfDecimal(n / 10);
      NumberAppend(Decimal(n / 10), c, 0);
    } else {
      NumberAppend("", c, 0);
      assert "" + [c] == [c];
    }
  }
}
