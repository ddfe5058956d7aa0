/** The evaluator itself: a parser object that computes values while its position moves. */
module CalculatorTool {
  import opened Wrappers
  import opened Calculator

  /** The answer and the new position are those of the parse p. */
  ghost predicate Follows<N>(s: string, p: Parsed<N>, r: Result<N, CalcError>, pos: nat) {
    && pos <= |s|
    && (p.Failed? ==> r == Err(p.error))
    && (p.Tree? ==> p.end <= |s| && r == Ok(p.value) && pos == Skip(s, p.end))
  }

  /** The parser object: it computes values while pos moves over the input. */
  class CalcParser<N> {
    const ar: Arith<N>
    const input: string
    var pos: nat

    constructor (ar: Arith<N>, input: string)
      ensures this.ar == ar && this.input == input && pos == 0
    {
      this.ar, this.input, pos := ar, input, 0;
    }

    method SkipSpaces()
      requires pos <= |input|
      modifies this`pos
      ensures pos == Skip(input, old(pos))
    {
      while pos < |input| && (input[pos] == ' ' || input[pos] == '\t')
        invariant old(pos) <= pos <= |input| && Skip(input, pos) == Skip(input, old(pos))
      {
        pos := pos + 1;
      }
    }

    method ParseSum() returns (r: Result<N, CalcError>)
      requires pos <= |input|
      modifies this`pos
      ensures Follows(input, ChainAt(ar, input, old(pos), 0), r, pos)
      decreases |input| - pos, 10
    {
      ghost var start := pos;
      hide UnaryAt, PowerAt, PrimaryAt, AtomAt, Skip, Apply;
      ghost var first := OperandAt(ar, input, pos, 0);
      var left := ParseProduct();
      if left.Err? {
        return left;
      }
      ghost var tree, end := first.tree, first.end;
      while true
        invariant start < end <= |input| && pos == Skip(input, end) && left.Ok?
        invariant ChainAt(ar, input, start, 0) == RestAt(ar, input, start, 0, tree, left.value, end)
        decreases |input| - end
      {
        SkipSpaces();
        if pos >= |input| {
          return left;
        }
        assert pos == Skip(input, end);
        var op := OperatorAt(input, pos);
        if op.None? || OpLevel(op.value) != 0 {
          return left;
        }
        ghost var operand := OperandAt(ar, input, pos + 1, 0);
        ghost var before := left.value;
        ghost var gap := input[end..pos];
        pos := pos + 1;
        var right := ParseProduct();
        if right.Err? {
          return right;
        }
        left := Apply(ar, op.value, left.value, right.value);
        assert RestAt(ar, input, start, 0, tree, before, end) ==
          RestAt(ar, input, start, 0, Binary(tree, gap, op.value, operand.tree), left.value, operand.end);
        tree, end := Binary(tree, gap, op.value, operand.tree), operand.end;
      }
    }

    method ParseProduct() returns (r: Result<N, CalcError>)
      requires pos <= |input|
      modifies this`pos
      ensures Follows(input, ChainAt(ar, input, old(pos), 1), r, pos)
      decreases |input| - pos, 9
    {
      ghost var start := pos;
      hide UnaryAt, PowerAt, PrimaryAt, AtomAt, Skip, Apply;
      ghost var first := OperandAt(ar, input, pos, 1);
      var left := ParseUnary();
      if left.Err? {
        return left;
      }
      ghost var tree, end := first.tree, first.end;
      while true
        invariant start < end <= |input| && pos == Skip(input, end) && left.Ok?
        invariant ChainAt(ar, input, start, 1) == RestAt(ar, input, start, 1, tree, left.value, end)
        decreases |input| - end
      {
        SkipSpaces();
        if pos >= |input| {
          return left;
        }
        assert pos == Skip(input, end);
        var op := OperatorAt(input, pos);
        if op.None? || OpLevel(op.value) != 1 {
          return left;
        }
        ghost var operand := OperandAt(ar, input, pos + 1, 1);
        ghost var before := left.value;
        ghost var gap := input[end..pos];
        pos := pos + 1;
        var right := ParseUnary();
        if right.Err? {
          return right;
        }
        left := Apply(ar, op.value, left.value, right.value);
        if left.Err? {
          return left;
        }
        assert RestAt(ar, input, start, 1, tree, before, end) ==
          RestAt(ar, input, start, 1, Binary(tree, gap, op.value, operand.tree), left.value, operand.end);
        tree, end := Binary(tree, gap, op.value, operand.tree), operand.end;
      }
    }

    method ParseUnary() returns (r: Result<N, CalcError>)
      requires pos <= |input|
      modifies this`pos
      ensures Follows(input, UnaryAt(ar, input, old(pos)), r, pos)
      decreases |input| - pos, 8
    {
      SkipSpaces();
      if pos < |input| && (input[pos] == '+' || input[pos] == '-') {
        var negative := input[pos] == '-';
        pos := pos + 1;
        r := ParseUnary();
        if r.Ok? && negative {
          r := Ok(Negate(ar, r.value));
        }
        return;
      }
      PowerIgnoresBlanks(ar, input, old(pos));
      r := ParsePower();
    }

    method ParsePower() returns (r: Result<N, CalcError>)
      requires pos <= |input|
      modifies this`pos
      ensures Follows(input, PowerAt(ar, input, old(pos)), r, pos)
      decreases |input| - pos, 7
    {
      hide PrimaryAt, UnaryAt, AtomAt, Skip;
      var base := ParsePrimary();
      if base.Err? {
        return base;
      }
      SkipSpaces();
      if pos < |input| && input[pos] == '^' {
        pos := pos + 1;
        var exponent := ParseUnary();
        if exponent.Err? {
          return exponent;
        }
        return Ok(Raise(ar, base.value, exponent.value));
      }
      return base;
    }

    method ParsePrimary() returns (r: Result<N, CalcError>)
      requires pos <= |input|
      modifies this`pos
      ensures pos <= |input|
      ensures var p := PrimaryAt(ar, input, old(pos));
        && (p.Failed? ==> r == Err(p.error))
        && (p.Tree? ==> r == Ok(p.value) && pos == p.end)
      decreases |input| - pos, 6
    {
      SkipSpaces();
      if pos >= |input| {
        return Err(UnexpectedEnd);
      }
      if input[pos] == '(' {
        pos := pos + 1;
        var value := ParseSum();
        if value.Err? {
          return value;
        }
        SkipSpaces();
        if pos >= |input| || input[pos] != ')' {
          return Err(MissingParenthesis);
        }
        pos := pos + 1;
        return value;
      }
      r := ParseAtom(old(pos));
    }

    /** The part of parsePrimary that reads a number or a named constant. */
    method ParseAtom(ghost from: nat) returns (r: Result<N, CalcError>)
      requires from <= pos < |input| && AllBlank(input[from..pos])
      modifies this`pos
      ensures pos <= |input|
      ensures var p := AtomAt(ar, input, from, old(pos));
        && (p.Failed? ==> r == Err(p.error))
        && (p.Tree? ==> r == Ok(p.value) && pos == p.end)
    {
      var start := pos;
      var seenDigit := ScanNumber();
      if !seenDigit {
        var nameStart := pos;
        ScanLetters();
        var name := Lower(input[nameStart..pos]);
        if name == "pi" {
          return Ok(ar.pi);
        } else if name == "e" {
          return Ok(ar.e);
        }
        return Err(Unexpected(nameStart));
      }
      var value := ReadNumber(ar, input[start..pos]);
      if value.None? {
        return Err(InvalidNumber(input[start..pos]));
      }
      return Ok(value.value);
    }

    method ScanNumber() returns (seenDigit: bool)
      requires pos <= |input|
      modifies this`pos
      ensures pos == NumberEnd(input, old(pos), false)
      ensures seenDigit == HasDigit(input[old(pos)..pos])
    {
      hide HasDigit;
      NoDigitYet(input[pos..pos]);
      var seenDot := false;
      seenDigit := false;
      while pos < |input|
        invariant old(pos) <= pos <= |input|
        invariant NumberEnd(input, pos, seenDot) == NumberEnd(input, old(pos), false)
        invariant seenDigit == HasDigit(input[old(pos)..pos])
        decreases |input| - pos
      {
        var c := input[pos];
        ExtendScan(input, old(pos), pos);
        if '0' <= c <= '9' {
          seenDigit, pos := true, pos + 1;
        } else if c == '.' && !seenDot {
          seenDot, pos := true, pos + 1;
        } else {
          break;
        }
      }
    }

    method ScanLetters()
      requires pos <= |input|
      modifies this`pos
      ensures pos == LettersEnd(input, old(pos))
    {
      while pos < |input| && ('a' <= input[pos] <= 'z' || 'A' <= input[pos] <= 'Z')
        invariant old(pos) <= pos <= |input| && LettersEnd(input, pos) == LettersEnd(input, old(pos))
      {
        pos := pos + 1;
      }
    }
  }

  lemma NoDigitYet(s: string)
    requires s == ""
    ensures !HasDigit(s)
  {
  }

  lemma ExtendScan(s: string, i: nat, j: nat)
    requires i <= j < |s|
    ensures HasDigit(s[i..j + 1]) <==> HasDigit(s[i..j]) || IsDigit(s[j])
  {
    assert s[i..j + 1] == s[i..j] + [s[j]];
    assert s[i..j + 1][j - i] == s[j];
    forall k | 0 <= k < j - i ensures s[i..j + 1][k] == s[i..j][k] {}
  }

  /** parseUnary skips the blanks before it hands over to parsePower. */
  lemma PowerIgnoresBlanks<N>(ar: Arith<N>, s: string, i: nat)
    requires i <= |s|
    ensures SameValue(PowerAt(ar, s, i), PowerAt(ar, s, Skip(s, i)))
  {
    hide PrimaryAt, UnaryAt, Skip, Raise;
    PrimaryIgnoresBlanks(ar, s, i);
  }

  lemma PrimaryIgnoresBlanks<N>(ar: Arith<N>, s: string, i: nat)
    requires i <= |s|
    ensures SameValue(PrimaryAt(ar, s, i), PrimaryAt(ar, s, Skip(s, i)))
  {
    var j := Skip(s, i);
    if j < |s| && s[j] != '(' {
      AtomIgnoresBlanks(ar, s, i, j);
    }
  }

  lemma AtomIgnoresBlanks<N>(ar: Arith<N>, s: string, i: nat, j: nat)
    requires i <= j < |s| && AllBlank(s[i..j])
    ensures SameValue(AtomAt(ar, s, i, j), AtomAt(ar, s, j, j))
  {
  }

  ghost predicate SameValue<N>(p: Parsed<N>, q: Parsed<N>) {
    && (p.Failed? ==> q == p)
    && (p.Tree? ==> q.Tree? && q.end == p.end && q.value == p.value)
  }

  method EvaluateExpression<N>(ar: Arith<N>, text: string) returns (r: Result<N, CalcError>)
    ensures r == Evaluate(ar, text)
  {
    var parser := new CalcParser(ar, Trim(text));
    if parser.input == "" {
      return Err(ExpressionRequired);
    }
    r := parser.ParseSum();
    if r.Err? {
      return;
    }
    parser.SkipSpaces();
    if parser.pos != |parser.input| {
      return Err(Unexpected(parser.pos));
    }
    if IsOutOfRange(ar, r.value) {
      return Err(OutOfRange);
    }
  }
}
