/** Column letters (nodes/google_sheets_exec.go): numbers written with the digits A to Z and no zero. */
module Columns {

  predicate IsLetter(c: char) { 'A' <= c <= 'Z' }

  predicate IsLetters(s: string) { forall k :: 0 <= k < |s| ==> IsLetter(s[k]) }

  /** The value of a string of letters, A being 1 and Z 26. */
  function Value(s: string): nat
    requires IsLetters(s)
  {
    if s == "" then 0 else Value(s[..|s| - 1]) * 26 + (s[|s| - 1] as int - 'A' as int + 1)
  }

  function LetterOf(n: nat): (c: char)
    requires n >= 1
    ensures IsLetter(c)
  {
    ((n - 1) % 26 + 'A' as int) as char
  }

  /** The letters whose value is n. */
  function Spelled(n: nat): (s: string)
    ensures IsLetters(s) && (s == "" <==> n == 0)
  {
    if n == 0 then "" else Spelled((n - 1) / 26) + [LetterOf(n)]
  }

  /** Every number is the value of its spelling... */
  lemma {:induction false} ValueOfSpelled(n: nat)
    ensures Value(Spelled(n)) == n
    decreases n
  {
    if n > 0 {
      ValueOfSpelled((n - 1) / 26);
      var s := Spelled(n);
      assert s[..|s| - 1] == Spelled((n - 1) / 26);
    }
  }

  /** ...and every string of letters is the spelling of its value. */
  lemma {:induction false} SpelledOfValue(s: string)
    requires IsLetters(s)
    ensures Spelled(Value(s)) == s
    decreases |s|
  {
    if s != "" {
      var before, last := s[..|s| - 1], s[|s| - 1];
      SpelledOfValue(before);
      var n := Value(s);
      assert (n - 1) / 26 == Value(before) && (n - 1) % 26 == last as int - 'A' as int;
      assert s == before + [last];
    }
  }

  method ColLetters(index: nat) returns (letters: string)
    ensures letters == Spelled(index + 1)
  {
    letters := "";
    var number: nat := index + 1;
    while number > 0
      invariant Spelled(number) + letters == Spelled(index + 1)
      decreases number
    {
      assert Spelled(number) + letters == Spelled((number - 1) / 26) + ([LetterOf(number)] + letters);
      letters := [LetterOf(number)] + letters;
      number := (number - 1) / 26;
    }
  }

  /** Trimming and upper-casing, which leave upper-case letters as they are. */
  type Cleaning = string -> string

  function Clean(c: Cleaning, s: string): string { c(s) }

  ghost predicate KeepsLetters(c: Cleaning) { forall s: string :: IsLetters(s) ==> Clean(c, s) == s }

  /** The number of a column, or 0 for a text that is not letters. */
  method ColNumber(c: Cleaning, text: string) returns (number: nat)
    ensures number == if IsLetters(Clean(c, text)) then Value(Clean(c, text)) else 0
  {
    var letters := Clean(c, text);
    if letters == "" {
      return 0;
    }
    number := 0;
    for k := 0 to |letters|
      invariant IsLetters(letters[..k]) && number == Value(letters[..k])
    {
      if !IsLetter(letters[k]) {
        return 0;
      }
      assert letters[..k + 1][..k] == letters[..k];
      number := number * 26 + (letters[k] as int - 'A' as int) + 1;
    }
    assert letters[..|letters|] == letters;
  }

  /** Turning an index into letters and back gives the index, counted from one. */
  method IndexThereAndBack(c: Cleaning, index: nat) returns (number: nat)
    requires KeepsLetters(c)
    ensures number == index + 1
  {
    var letters := ColLetters(index);
    ValueOfSpelled(index + 1);
    number := ColNumber(c, letters);
  }

  /** Turning letters into a number and back gives the letters. */
  method LettersThereAndBack(c: Cleaning, letters: string) returns (again: string)
    requires KeepsLetters(c) && IsLetters(letters) && letters != ""
    ensures again == letters
  {
    var number := ColNumber(c, letters);
    SpelledOfValue(letters);
    again := ColLetters(number - 1);
  }

  lemma LettersAreCapitals(c: char)
    ensures IsLetter(c) <==> c in "ABCDEFGHIJKLMNOPQRSTUVWXYZ"
  {
    if IsLetter(c) {
      assert "ABCDEFGHIJKLMNOPQRSTUVWXYZ"[c as int - 65] == c;
    }
  }

  /** The letters are those of a spreadsheet: A to Z, then AA. */
  lemma SpelledAsOnASheet()
    ensures Spelled(1) == "A" && Spelled(26) == "Z" && Spelled(27) == "AA" && Spelled(28) == "AB"
    ensures Spelled(702) == "ZZ" && Spelled(703) == "AAA"
  {
    assert Spelled(0) == "";
    assert Spelled(1) == "" + ['A'] && Spelled(26) == "" + ['Z'];
    assert Spelled(27) == Spelled(1) + ['A'] && Spelled(28) == Spelled(1) + ['B'];
    assert Spelled(702) == Spelled(26) + ['Z'] && Spelled(703) == Spelled(27) + ['A'];
  }
}
