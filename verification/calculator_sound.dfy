/** Soundness of the calculator's parser: a parse derives exactly the text it consumed. */
module CalculatorSound {
  import opened Wrappers
  import opened Calculator

  ghost predicate Sound<N>(ar: Arith<N>, s: string, i: nat, level: nat, r: Parsed<N>) {
    r.Tree? ==>
      && i < r.end <= |s|
      && Value(ar, r.tree) == Ok(r.value)
      && s[i..r.end] == Text(r.tree)
      && Derivation(r.tree)
      && Level(r.tree) >= level
  }

  lemma {:induction false} ChainSound<N>(ar: Arith<N>, s: string, i: nat, level: nat)
    requires i <= |s| && level <= 1
    ensures Sound(ar, s, i, level, ChainAt(ar, s, i, level))
    decreases |s| - i, 10 - level
  {
    OperandSound(ar, s, i, level);
    var first := OperandAt(ar, s, i, level);
    if first.Tree? {
      RestSound(ar, s, i, level, first.tree, first.value, first.end);
    }
  }

  lemma {:induction false} OperandSound<N>(ar: Arith<N>, s: string, i: nat, level: nat)
    requires i <= |s| && level <= 1
    ensures Sound(ar, s, i, level + 1, OperandAt(ar, s, i, level))
    decreases |s| - i, 10 - level, 0
  {
    if level == 0 { ChainSound(ar, s, i, 1); } else { UnarySound(ar, s, i); }
  }

  lemma {:induction false} RestSound<N>(ar: Arith<N>, s: string, i: nat, level: nat, left: Expr, value: N, end: nat)
    requires i < end <= |s| && level <= 1 && Sound(ar, s, i, level, Tree(left, value, end))
    ensures Sound(ar, s, i, level, RestAt(ar, s, i, level, left, value, end))
    decreases |s| - end, 10 - level, 1
  {
    var j := Skip(s, end);
    var op := OperatorAt(s, j);
    if op.Some? && OpLevel(op.value) == level {
      OperandSound(ar, s, j + 1, level);
      var right := OperandAt(ar, s, j + 1, level);
      if right.Tree? {
        BinaryJoin(ar, s, i, level, left, value, end, j, op.value, right);
        var v := Apply(ar, op.value, value, right.value);
        if v.Ok? {
          RestSound(ar, s, i, level, Binary(left, s[end..j], op.value, right.tree), v.value, right.end);
        }
      }
    }
  }

  lemma BinaryJoin<N>(ar: Arith<N>, s: string, i: nat, level: nat, left: Expr, value: N, end: nat,
                      j: nat, op: Operator, right: Parsed<N>)
    requires Sound(ar, s, i, level, Tree(left, value, end)) && OpLevel(op) == level
    requires end <= j < |s| && s[j] == Sigil(op) && AllBlank(s[end..j])
    requires right.Tree? && Sound(ar, s, j + 1, level + 1, right)
    ensures var v := Apply(ar, op, value, right.value);
      v.Ok? ==> Sound(ar, s, i, level, Tree(Binary(left, s[end..j], op, right.tree), v.value, right.end))
  {
    Glue(s, i, end, j, right.end);
  }

  lemma Glue(s: string, i: nat, m: nat, j: nat, end: nat)
    requires i <= m <= j < end <= |s|
    ensures s[i..end] == s[i..m] + s[m..j] + [s[j]] + s[j + 1..end]
  {
  }

  lemma {:induction false} UnarySound<N>(ar: Arith<N>, s: string, i: nat)
    requires i <= |s|
    ensures Sound(ar, s, i, 2, UnaryAt(ar, s, i))
    decreases |s| - i, 8
  {
    hide PowerAt, Sound;
    var j := Skip(s, i);
    if j < |s| && (s[j] == '+' || s[j] == '-') {
      UnarySound(ar, s, j + 1);
      var operand := UnaryAt(ar, s, j + 1);
      if operand.Tree? {
        SignJoin(ar, s, i, j, operand);
      } else {
        FailedIsSound(ar, s, i, 2, operand);
      }
    } else {
      PowerSound(ar, s, i);
      Loosens(ar, s, i, PowerAt(ar, s, i));
    }
  }

  lemma FailedIsSound<N>(ar: Arith<N>, s: string, i: nat, level: nat, r: Parsed<N>)
    requires r.Failed?
    ensures Sound(ar, s, i, level, r)
  {
  }

  lemma Loosens<N>(ar: Arith<N>, s: string, i: nat, r: Parsed<N>)
    requires Sound(ar, s, i, 3, r)
    ensures Sound(ar, s, i, 2, r)
  {
  }

  lemma SignJoin<N>(ar: Arith<N>, s: string, i: nat, j: nat, operand: Parsed<N>)
    requires i <= j < |s| && (s[j] == '+' || s[j] == '-') && AllBlank(s[i..j])
    requires operand.Tree? && Sound(ar, s, j + 1, 2, operand)
    ensures var value := if s[j] == '-' then Negate(ar, operand.value) else operand.value;
      Sound(ar, s, i, 2, Tree(Sign(s[i..j], s[j] == '-', operand.tree), value, operand.end))
  {
    Glue(s, i, i, j, operand.end);
  }

  lemma {:induction false} PowerSound<N>(ar: Arith<N>, s: string, i: nat)
    requires i <= |s|
    ensures Sound(ar, s, i, 3, PowerAt(ar, s, i))
    decreases |s| - i, 7
  {
    hide PrimaryAt;
    PrimarySound(ar, s, i);
    var base := PrimaryAt(ar, s, i);
    if base.Tree? {
      var j := Skip(s, base.end);
      if j < |s| && s[j] == '^' {
        UnarySound(ar, s, j + 1);
        var exponent := UnaryAt(ar, s, j + 1);
        if exponent.Tree? {
          PowerJoin(ar, s, i, base, j, exponent);
        }
      }
    }
  }

  lemma PowerJoin<N>(ar: Arith<N>, s: string, i: nat, base: Parsed<N>, j: nat, exponent: Parsed<N>)
    requires base.Tree? && exponent.Tree?
    requires Sound(ar, s, i, 4, base) && base.end <= j < |s| && s[j] == '^' && AllBlank(s[base.end..j])
    requires Sound(ar, s, j + 1, 2, exponent)
    ensures Sound(ar, s, i, 3, Tree(Power(base.tree, s[base.end..j], exponent.tree),
                                    Raise(ar, base.value, exponent.value), exponent.end))
  {
    Glue(s, i, base.end, j, exponent.end);
  }

  lemma {:induction false} PrimarySound<N>(ar: Arith<N>, s: string, i: nat)
    requires i <= |s|
    ensures Sound(ar, s, i, 4, PrimaryAt(ar, s, i))
    decreases |s| - i, 6
  {
    var j := Skip(s, i);
    if j < |s| && s[j] == '(' {
      ChainSound(ar, s, j + 1, 0);
      var inner := ChainAt(ar, s, j + 1, 0);
      if inner.Tree? {
        var k := Skip(s, inner.end);
        if k < |s| && s[k] == ')' {
          ParenSound(ar, s, i, j, inner, k);
        }
      }
    } else if j < |s| {
      AtomSound(ar, s, i, j);
    }
  }

  lemma ParenSound<N>(ar: Arith<N>, s: string, i: nat, j: nat, inner: Parsed<N>, k: nat)
    requires inner.Tree? && i <= j < |s| && s[j] == '(' && AllBlank(s[i..j])
    requires Sound(ar, s, j + 1, 0, inner) && inner.end <= k < |s| && s[k] == ')' && AllBlank(s[inner.end..k])
    ensures Sound(ar, s, i, 4, Tree(Paren(s[i..j], inner.tree, s[inner.end..k]), inner.value, k + 1))
  {
    assert s[i..k + 1] == s[i..j] + [s[j]] + s[j + 1..k] + [s[k]];
    assert s[j + 1..k] == s[j + 1..inner.end] + s[inner.end..k];
  }

  lemma AtomSound<N>(ar: Arith<N>, s: string, i: nat, j: nat)
    requires i <= j < |s| && AllBlank(s[i..j])
    ensures Sound(ar, s, i, 4, AtomAt(ar, s, i, j))
  {
    hide Text, Derivation, Value;
    var n := NumberEnd(s, j, false);
    ScannedRun(s, j, n);
    if HasDigit(s[j..n]) {
      NumberText(s, i, j, n);
      NumberIsDerivation(ar, s[i..j], s[j..n]);
    } else {
      var m := LettersEnd(s, n);
      NoDigitIsDot(s[j..n]);
      ConstantText(s, i, j, n, m);
      if IsConstantName(s[n..m]) {
        ConstantIsDerivation(ar, s[i..j], s[j..n] != "", s[n..m]);
      }
    }
  }

  lemma ScannedRun(s: string, j: nat, n: nat)
    requires j <= |s| && n == NumberEnd(s, j, false)
    ensures forall k :: 0 <= k < n - j ==> IsDigit(s[j..n][k]) || s[j..n][k] == '.'
    ensures AtMostOneDot(s[j..n])
  {
  }

  lemma NumberText(s: string, i: nat, j: nat, n: nat)
    requires i <= j <= n <= |s|
    ensures Text(Number(s[i..j], s[j..n])) == s[i..n]
  {
  }

  lemma ConstantText(s: string, i: nat, j: nat, n: nat, m: nat)
    requires i <= j <= n <= m <= |s| && (s[j..n] == "" || s[j..n] == ".")
    ensures Text(Constant(s[i..j], s[j..n] != "", s[n..m])) == s[i..m]
  {
    assert s[i..m] == s[i..j] + s[j..n] + s[n..m];
  }

  lemma NumberIsDerivation<N>(ar: Arith<N>, blanks: string, literal: string)
    requires AllBlank(blanks) && IsLiteral(literal)
    ensures Derivation(Number(blanks, literal))
    ensures var v := ReadNumber(ar, literal);
      Value(ar, Number(blanks, literal)) == if v.None? then Err(InvalidNumber(literal)) else Ok(v.value)
  {
  }

  lemma ConstantIsDerivation<N>(ar: Arith<N>, blanks: string, dot: bool, name: string)
    requires AllBlank(blanks) && IsConstantName(name)
    ensures Derivation(Constant(blanks, dot, name)) &&
      Value(ar, Constant(blanks, dot, name)) == Ok(NamedValue(ar, name))
  {
  }

  /** A scanned run without a digit is empty or a lone dot. */
  lemma NoDigitIsDot(literal: string)
    requires forall k :: 0 <= k < |literal| ==> IsDigit(literal[k]) || literal[k] == '.'
    requires AtMostOneDot(literal)
    requires !HasDigit(literal)
    ensures literal == "" || literal == "."
  {
    if |literal| > 1 {
      OneOfTwoIsNoDot(literal);
      assert false;
    }
  }

  lemma OneOfTwoIsNoDot(s: string)
    requires |s| > 1 && AtMostOneDot(s)
    ensures s[0] != '.' || s[1] != '.'
  {
  }
}
