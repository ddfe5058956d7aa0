/** Completeness of the calculator's parser: every derivation is followed. */
module CalculatorComplete {
  import opened Wrappers
  import opened Calculator

  // ----- Where a derived text starts and ends ------------------------------

  /** A derived text starts with ink when it has no margin, and always ends with ink. */
  lemma TextIsTight(e: Expr)
    requires Derivation(e)
    ensures Text(e) != "" && !IsSpace(Text(e)[|Text(e)| - 1])
    ensures Margin(e) == "" ==> !IsSpace(Text(e)[0])
  {
    EndsWithInk(e);
    if Margin(e) == "" {
      StartsWithInk(e);
    }
  }

  lemma {:induction false} EndsWithInk(e: Expr)
    requires Derivation(e)
    ensures Text(e) != "" && !IsSpace(Text(e)[|Text(e)| - 1])
  {
    hide IsSpace, IsConstantName;
    match e
    case Binary(l, gap, op, r) => EndsWithInk(r); LastOf(Text(l) + gap + [Sigil(op)], Text(r));
    case Sign(b, negative, x) => EndsWithInk(x); LastOf(b + [if negative then '-' else '+'], Text(x));
    case Power(b, gap, x) => EndsWithInk(x); LastOf(Text(b) + gap + ['^'], Text(x));
    case Number(b, literal) => LastOf(b, literal); IsInk(literal[|literal| - 1]);
    case Constant(b, dot, name) =>
      NameIsLetters(name);
      LastOf(b + (if dot then "." else ""), name);
      IsInk(name[|name| - 1]);
    case Paren(b, x, closing) => LastOf(b + ['('] + Text(x) + closing, [')']); IsInk(')');
  }

  lemma IsInk(c: char)
    ensures IsDigit(c) || IsLetter(c) || c == '.' || c == ')' ==> !IsSpace(c)
  {
  }

  lemma LastOf(a: string, b: string)
    requires b != ""
    ensures (a + b)[|a + b| - 1] == b[|b| - 1]
  {
  }

  lemma {:induction false} StartsWithInk(e: Expr)
    requires Derivation(e) && Margin(e) == ""
    ensures Text(e) != "" && !IsSpace(Text(e)[0])
  {
    match e
    case Binary(l, gap, op, r) => StartsWithInk(l); FirstOf(Text(l), gap, [Sigil(op)], Text(r));
    case Power(b, gap, x) => StartsWithInk(b); FirstOf(Text(b), gap, ['^'], Text(x));
    case Sign(b, negative, x) => FirstAfter(b, [if negative then '-' else '+'], Text(x));
    case Number(b, literal) => FirstAfter(b, literal, "");
    case Constant(b, dot, name) =>
      NameIsLetters(name);
      FirstAfter(b + (if dot then "." else ""), name, "");
    case Paren(b, x, closing) =>
      FirstAfter(b, ['('], Text(x));
      FirstOf(b + ['('], Text(x), closing, [')']);
  }

  lemma FirstOf(a: string, b: string, c: string, d: string)
    requires a != ""
    ensures a + b + c + d != "" && (a + b + c + d)[0] == a[0]
  {
  }

  lemma FirstAfter(a: string, b: string, c: string)
    requires b != ""
    ensures a + b + c != "" && (a + b + c)[0] == if a == "" then b[0] else a[0]
    ensures a + b != "" && (a + b)[0] == if a == "" then b[0] else a[0]
  {
  }

  // ----- Following a derivation ---------------------------------------------

  /** What may come after a form of the given level without extending it. */
  predicate Follow(s: string, end: nat, level: nat)
    requires end <= |s|
  {
    var j := Skip(s, end);
    || j == |s|
    || s[j] == ')'
    || (level >= 1 && (s[j] == '+' || s[j] == '-'))
    || (level >= 2 && (s[j] == '*' || s[j] == '/' || s[j] == '%'))
    || (level >= 4 && s[j] == '^')
  }

  /** The parse a derivation calls for: itself when it has a value, else that error. */
  function Expected<N>(ar: Arith<N>, e: Expr, end: nat): Parsed<N> {
    var v := Value(ar, e);
    if v.Ok? then Tree(e, v.value, end) else Failed(v.error)
  }

  predicate At(s: string, i: nat, end: nat, e: Expr) {
    i <= end <= |s| && s[i..end] == Text(e) && Derivation(e)
  }

  lemma SkipTo(s: string, i: nat, j: nat)
    requires i <= j <= |s| && AllBlank(s[i..j])
    requires j == |s| || !IsBlank(s[j])
    ensures Skip(s, i) == j
  {
    forall k | i <= k < j ensures IsBlank(s[k]) {
      assert s[k] == s[i..j][k - i];
    }
    SkipOver(s, i, j);
  }

  lemma {:induction false} SkipOver(s: string, i: nat, j: nat)
    requires i <= j <= |s| && forall k :: i <= k < j ==> IsBlank(s[k])
    requires j == |s| || !IsBlank(s[j])
    ensures Skip(s, i) == j
    decreases j - i
  {
    if i < j {
      SkipOver(s, i + 1, j);
    }
  }

  /** Cuts a stretch of s that equals a concatenation. */
  lemma Cut(s: string, i: nat, end: nat, a: string, b: string)
    requires i <= end <= |s| && s[i..end] == a + b
    ensures i + |a| <= end && s[i..i + |a|] == a && s[i + |a|..end] == b
  {
    assert s[i..i + |a|] == s[i..end][..|a|];
    assert s[i + |a|..end] == s[i..end][|a|..];
  }

  lemma CutTwo(s: string, i: nat, end: nat, a: string, b: string, c: string) returns (j: nat, n: nat)
    requires i <= end <= |s| && s[i..end] == a + b + c
    ensures i <= j <= n <= end && s[i..j] == a && s[j..n] == b && s[n..end] == c
    ensures j == i + |a| && n == j + |b|
  {
    assert a + b + c == a + (b + c);
    Cut(s, i, end, a, b + c);
    j := i + |a|;
    Cut(s, j, end, b, c);
    n := j + |b|;
  }

  lemma CutThree(s: string, i: nat, end: nat, a: string, b: string, c: char, d: string) returns (m: nat, j: nat)
    requires i <= end <= |s| && s[i..end] == a + b + [c] + d
    ensures i <= m <= j < end && s[i..m] == a && s[m..j] == b && s[j] == c && s[j + 1..end] == d
    ensures m == i + |a| && j == m + |b|
  {
    var tail := [c] + d;
    assert a + b + [c] + d == a + b + tail;
    m, j := CutTwo(s, i, end, a, b, tail);
    Cut(s, j, end, [c], d);
    assert s[j..j + 1][0] == c;
  }

  lemma CutBinary(s: string, i: nat, end: nat, a: string, gap: string, c: char, b: string)
    requires i <= end <= |s| && s[i..end] == a + gap + [c] + b
    requires AllBlank(gap) && !IsBlank(c)
    ensures var m, j := i + |a|, i + |a| + |gap|;
            && j < end && s[i..m] == a && s[m..j] == gap && s[j] == c && s[j + 1..end] == b
            && Skip(s, m) == j
  {
    var m, j := CutThree(s, i, end, a, gap, c, b);
    SkipTo(s, m, j);
  }

  lemma SplitBinary(s: string, i: nat, end: nat, e: Expr) returns (m: nat, j: nat)
    requires At(s, i, end, e) && e.Binary?
    ensures At(s, i, m, e.left) && m <= j < end && At(s, j + 1, end, e.right)
    ensures s[m..j] == e.gap && s[j] == Sigil(e.op) && Skip(s, m) == j
  {
    CutBinary(s, i, end, Text(e.left), e.gap, Sigil(e.op), Text(e.right));
    m, j := i + |Text(e.left)|, i + |Text(e.left)| + |e.gap|;
  }

  lemma SplitPower(s: string, i: nat, end: nat, e: Expr) returns (m: nat, j: nat)
    requires At(s, i, end, e) && e.Power?
    ensures At(s, i, m, e.base) && m <= j < end && At(s, j + 1, end, e.exponent)
    ensures s[m..j] == e.gap && s[j] == '^' && Skip(s, m) == j
  {
    CutBinary(s, i, end, Text(e.base), e.gap, '^', Text(e.exponent));
    m, j := i + |Text(e.base)|, i + |Text(e.base)| + |e.gap|;
  }

  lemma SplitSign(s: string, i: nat, end: nat, e: Expr) returns (j: nat)
    requires At(s, i, end, e) && e.Sign?
    ensures i <= j < end && At(s, j + 1, end, e.operand)
    ensures s[i..j] == e.blanks && s[j] == (if e.negative then '-' else '+') && Skip(s, i) == j
  {
    var c := if e.negative then '-' else '+';
    assert Text(e) == "" + e.blanks + [c] + Text(e.operand);
    CutBinary(s, i, end, "", e.blanks, c, Text(e.operand));
    j := i + |e.blanks|;
  }

  lemma CutBracketed(s: string, i: nat, end: nat, blanks: string, t: string, closing: string)
    returns (j: nat, m: nat, k: nat)
    requires i <= end <= |s| && s[i..end] == blanks + ['('] + t + closing + [')']
    requires AllBlank(blanks) && AllBlank(closing)
    ensures i <= j < m <= k < end && s[j + 1..m] == t && end == k + 1
    ensures s[i..j] == blanks && s[j] == '(' && Skip(s, i) == j
    ensures s[m..k] == closing && s[k] == ')' && Skip(s, m) == k
  {
    var rest := t + closing + [')'];
    assert blanks + ['('] + t + closing + [')'] == blanks + ['('] + rest;
    var n;
    j, n := CutTwo(s, i, end, blanks, ['('], rest);
    assert s[j] == s[j..n][0];
    SkipTo(s, i, j);
    m, k := CutTwo(s, n, end, t, closing, [')']);
    assert s[k] == s[k..end][0];
    SkipTo(s, m, k);
  }

  lemma SplitParen(s: string, i: nat, end: nat, e: Expr) returns (j: nat, m: nat, k: nat)
    requires At(s, i, end, e) && e.Paren?
    ensures i <= j < m <= k < end && At(s, j + 1, m, e.inner) && end == k + 1
    ensures s[i..j] == e.blanks && s[j] == '(' && Skip(s, i) == j
    ensures s[m..k] == e.closing && s[k] == ')' && Skip(s, m) == k
  {
    j, m, k := CutBracketed(s, i, end, e.blanks, Text(e.inner), e.closing);
  }

  lemma SplitNumber(s: string, i: nat, end: nat, e: Expr) returns (j: nat)
    requires At(s, i, end, e) && e.Number?
    ensures i <= j < end && s[i..j] == e.blanks && s[j..end] == e.literal && Skip(s, i) == j
  {
    Cut(s, i, end, e.blanks, e.literal);
    j := i + |e.blanks|;
    assert |s[j..end]| == |e.literal| > 0;
    assert s[j] == s[j..end][0];
    SkipTo(s, i, j);
  }

  lemma SplitConstant(s: string, i: nat, end: nat, e: Expr) returns (j: nat, n: nat)
    requires At(s, i, end, e) && e.Constant?
    ensures i <= j <= n < end && s[i..j] == e.blanks && s[n..end] == e.name && Skip(s, i) == j
    ensures (if e.dot then n == j + 1 && s[j] == '.' else n == j) && IsLetter(s[n])
  {
    var prefix := if e.dot then "." else "";
    NameIsLetters(e.name);
    j, n := CutTwo(s, i, end, e.blanks, prefix, e.name);
    assert s[n] == s[n..end][0];
    assert e.dot ==> s[j] == s[j..n][0];
    SkipTo(s, i, j);
  }

  /** One round of a chain's loop. */
  lemma RestStep<N>(ar: Arith<N>, s: string, i: nat, level: nat, e: Expr, m: nat, j: nat, end: nat)
    requires level <= 1 && e.Binary? && OpLevel(e.op) == level && Value(ar, e.left).Ok?
    requires i < m <= j < end <= |s|
    requires s[m..j] == e.gap && s[j] == Sigil(e.op) && Skip(s, m) == j
    requires OperandAt(ar, s, j + 1, level) == Expected(ar, e.right, end)
    ensures RestAt(ar, s, i, level, e.left, Value(ar, e.left).value, m) ==
            var v := Value(ar, e);
            if v.Err? then Failed(v.error) else RestAt(ar, s, i, level, e, v.value, end)
  {
    assert OperatorAt(s, j) == Some(e.op);
  }

  lemma {:induction false} OperandComplete<N>(ar: Arith<N>, s: string, i: nat, level: nat, e: Expr, end: nat)
    requires level <= 1 && At(s, i, end, e) && Level(e) > level && Follow(s, end, level + 1)
    ensures OperandAt(ar, s, i, level) == Expected(ar, e, end)
    decreases e, 10 - level, 0
  {
    if level == 0 {
      ChainComplete(ar, s, i, 1, e, end);
    } else {
      UnaryComplete(ar, s, i, e, end);
    }
  }

  /** The left spine of a chain: the loop reaches e with nothing left over. */
  lemma {:induction false} SpineComplete<N>(ar: Arith<N>, s: string, i: nat, level: nat, e: Expr, end: nat)
    requires level <= 1 && At(s, i, end, e) && Level(e) >= level && Follow(s, end, level + 1)
    ensures i < end
    ensures ChainAt(ar, s, i, level) ==
            var v := Value(ar, e);
            if v.Err? then Failed(v.error) else RestAt(ar, s, i, level, e, v.value, end)
    decreases e, 10 - level, 1
  {
    if Level(e) == level {
      var m, j := SplitBinary(s, i, end, e);
      SpineComplete(ar, s, i, level, e.left, m);
      OperandComplete(ar, s, j + 1, level, e.right, end);
      if Value(ar, e.left).Ok? {
        RestStep(ar, s, i, level, e, m, j, end);
      }
    } else {
      TextIsTight(e);
      OperandComplete(ar, s, i, level, e, end);
    }
  }

  lemma {:induction false} ChainComplete<N>(ar: Arith<N>, s: string, i: nat, level: nat, e: Expr, end: nat)
    requires level <= 1 && At(s, i, end, e) && Level(e) >= level && Follow(s, end, level)
    ensures ChainAt(ar, s, i, level) == Expected(ar, e, end)
    decreases e, 10 - level, 2
  {
    SpineComplete(ar, s, i, level, e, end);
  }

  lemma {:induction false} UnaryComplete<N>(ar: Arith<N>, s: string, i: nat, e: Expr, end: nat)
    requires At(s, i, end, e) && Level(e) >= 2 && Follow(s, end, 2)
    ensures UnaryAt(ar, s, i) == Expected(ar, e, end)
    decreases e, 8
  {
    hide Text, PowerAt;
    if e.Sign? {
      var j := SplitSign(s, i, end, e);
      UnaryComplete(ar, s, j + 1, e.operand, end);
    } else {
      StartsWithNoSign(s, i, end, e);
      PowerComplete(ar, s, i, e, end);
    }
  }

  lemma {:induction false} StartsWithNoSign(s: string, i: nat, end: nat, e: Expr)
    requires At(s, i, end, e) && Level(e) >= 3
    ensures var j := Skip(s, i); j < end && s[j] != '+' && s[j] != '-'
  {
    match e
    case Power(_, _, _) =>
      var m, _ := SplitPower(s, i, end, e);
      StartsWithNoSign(s, i, m, e.base);
    case Paren(_, _, _) =>
      var _, _, _ := SplitParen(s, i, end, e);
    case Number(_, literal) =>
      var j := SplitNumber(s, i, end, e);
      assert s[j] == s[j..end][0] == literal[0];
    case Constant(_, _, _) =>
      var j, n := SplitConstant(s, i, end, e);
  }

  lemma NameIsLetters(name: string)
    requires IsConstantName(name)
    ensures name != "" && forall k :: 0 <= k < |name| ==> IsLetter(name[k])
  {
    assert |Lower(name)| == |name|;
    forall i | 0 <= i < |name| ensures IsLetter(name[i]) {
      assert Lower(name)[i] == LowerChar(name[i]);
    }
  }

  lemma {:induction false} PowerComplete<N>(ar: Arith<N>, s: string, i: nat, e: Expr, end: nat)
    requires At(s, i, end, e) && Level(e) >= 3 && Follow(s, end, 2)
    ensures PowerAt(ar, s, i) == Expected(ar, e, end)
    decreases e, 7
  {
    hide Text, PrimaryAt, UnaryAt, Value;
    if e.Power? {
      var m, j := SplitPower(s, i, end, e);
      PrimaryComplete(ar, s, i, e.base, m);
      UnaryComplete(ar, s, j + 1, e.exponent, end);
      PowerStep(ar, s, i, e, m, j, end);
    } else {
      PrimaryComplete(ar, s, i, e, end);
    }
  }

  lemma PowerStep<N>(ar: Arith<N>, s: string, i: nat, e: Expr, m: nat, j: nat, end: nat)
    requires i <= m <= j < end <= |s| && e.Power?
    requires s[m..j] == e.gap && s[j] == '^' && Skip(s, m) == j
    requires PrimaryAt(ar, s, i) == Expected(ar, e.base, m)
    requires UnaryAt(ar, s, j + 1) == Expected(ar, e.exponent, end)
    ensures PowerAt(ar, s, i) == Expected(ar, e, end)
  {
    hide PrimaryAt, UnaryAt, Skip, Raise;
    var base, exponent := Expected(ar, e.base, m), Expected(ar, e.exponent, end);
    if base.Tree? && exponent.Tree? {
      assert PowerAt(ar, s, i) == Tree(Power(e.base, e.gap, e.exponent), Raise(ar, base.value, exponent.value), end);
    }
  }

  lemma {:induction false} PrimaryComplete<N>(ar: Arith<N>, s: string, i: nat, e: Expr, end: nat)
    requires At(s, i, end, e) && Level(e) == 4 && Follow(s, end, 4)
    ensures PrimaryAt(ar, s, i) == Expected(ar, e, end)
    decreases e, 6
  {
    hide Text, HasDigit, IsConstantName, ChainAt, AtomAt, Value;
    match e
    case Paren(_, _, _) =>
      var j, m, k := SplitParen(s, i, end, e);
      ChainComplete(ar, s, j + 1, 0, e.inner, m);
      ParenStep(ar, s, i, e, j, m, k);
    case Number(_, _) =>
      var j := SplitNumber(s, i, end, e);
      assert s[j] == e.literal[0];
      NumberComplete(ar, s, i, j, e, end);
    case Constant(_, _, _) =>
      var j, n := SplitConstant(s, i, end, e);
      ConstantComplete(ar, s, i, j, n, e, end);
  }

  lemma ParenStep<N>(ar: Arith<N>, s: string, i: nat, e: Expr, j: nat, m: nat, k: nat)
    requires i <= j < m <= k < |s| && e.Paren?
    requires s[i..j] == e.blanks && s[j] == '(' && Skip(s, i) == j
    requires s[m..k] == e.closing && s[k] == ')' && Skip(s, m) == k
    requires ChainAt(ar, s, j + 1, 0) == Expected(ar, e.inner, m)
    ensures PrimaryAt(ar, s, i) == Expected(ar, e, k + 1)
  {
    hide ChainAt, AtomAt, Skip;
  }

  lemma NumberComplete<N>(ar: Arith<N>, s: string, i: nat, j: nat, e: Expr, end: nat)
    requires i <= j < end <= |s| && e.Number? && Derivation(e) && Follow(s, end, 4)
    requires s[i..j] == e.blanks && s[j..end] == e.literal
    ensures AtomAt(ar, s, i, j) == Expected(ar, e, end)
  {
    forall k | j <= k < end ensures s[k] == e.literal[k - j] { assert s[k] == s[j..end][k - j]; }
    NumberEndIs(s, j, end, false);
  }

  lemma ConstantComplete<N>(ar: Arith<N>, s: string, i: nat, j: nat, n: nat, e: Expr, end: nat)
    requires i <= j <= n < end <= |s| && e.Constant? && Derivation(e) && Follow(s, end, 4)
    requires s[i..j] == e.blanks && s[n..end] == e.name && IsLetter(s[n])
    requires if e.dot then n == j + 1 && s[j] == '.' else n == j
    ensures AtomAt(ar, s, i, j) == Expected(ar, e, end)
  {
    hide Text;
    NameIsLetters(e.name);
    forall k | n <= k < end ensures IsLetter(s[k]) { assert s[k] == s[n..end][k - n]; }
    NumberEndIs(s, j, n, false);
    LettersEndIs(s, n, end);
    assert s[j..n] == if e.dot then "." else "";
    assert !HasDigit(s[j..n]);
  }

  lemma {:induction false} NumberEndIs(s: string, i: nat, n: nat, seenDot: bool)
    requires i <= n <= |s|
    requires forall k :: i <= k < n ==> IsDigit(s[k]) || s[k] == '.'
    requires forall k, m :: i <= k < m < n ==> !(s[k] == '.' && s[m] == '.')
    requires seenDot ==> forall k :: i <= k < n ==> s[k] != '.'
    requires n == |s| || !(IsDigit(s[n]) || s[n] == '.')
    ensures NumberEnd(s, i, seenDot) == n
    decreases n - i
  {
    if i < n {
      NumberEndIs(s, i + 1, n, seenDot || s[i] == '.');
    }
  }

  lemma {:induction false} LettersEndIs(s: string, i: nat, n: nat)
    requires i <= n <= |s|
    requires forall k :: i <= k < n ==> IsLetter(s[k])
    requires n == |s| || !IsLetter(s[n])
    ensures LettersEnd(s, i) == n
    decreases n - i
  {
    if i < n {
      LettersEndIs(s, i + 1, n);
    }
  }
}
