/** What the calculator answers, on every text and for every expression tree. */
module CalculatorTheorem {
  import opened Wrappers
  import opened Calculator
  import opened CalculatorSound
  import opened CalculatorComplete

  /** The tree without the blanks in front of its first token. */
  function Flush(e: Expr): Expr {
    match e
    case Binary(l, gap, op, r) => Binary(Flush(l), gap, op, r)
    case Power(b, gap, x) => Power(Flush(b), gap, x)
    case Sign(_, negative, x) => Sign("", negative, x)
    case Number(_, literal) => Number("", literal)
    case Constant(_, dot, name) => Constant("", dot, name)
    case Paren(_, x, closing) => Paren("", x, closing)
  }

  lemma {:induction false} FlushKeepsMeaning<N>(ar: Arith<N>, e: Expr)
    requires Derivation(e)
    ensures Derivation(Flush(e)) && Level(Flush(e)) == Level(e) && Value(ar, Flush(e)) == Value(ar, e)
    ensures AllBlank(Margin(e)) && Margin(Flush(e)) == ""
  {
    match e
    case Binary(l, _, _, _) => FlushKeepsMeaning(ar, l);
    case Power(b, _, _) => FlushKeepsMeaning(ar, b);
    case _ =>
  }

  lemma {:induction false} FlushText(e: Expr)
    ensures Text(e) == Margin(e) + Text(Flush(e))
  {
    match e
    case Binary(l, gap, op, r) =>
      FlushText(l);
      Regroup4(Margin(l), Text(Flush(l)), gap, [Sigil(op)], Text(r));
    case Power(b, gap, x) =>
      FlushText(b);
      Regroup4(Margin(b), Text(Flush(b)), gap, ['^'], Text(x));
    case Sign(b, negative, x) =>
      assert Text(e) == b + ("" + [if negative then '-' else '+'] + Text(x));
    case Number(b, literal) =>
      assert Text(Flush(e)) == literal;
    case Constant(b, dot, name) =>
      assert Text(e) == b + ("" + (if dot then "." else "") + name);
    case Paren(b, x, closing) =>
      assert Text(e) == b + ("" + ['('] + Text(x) + closing + [')']);
  }

  lemma Regroup4(a: string, b: string, c: string, d: string, e: string)
    ensures (a + b) + c + d + e == a + (b + c + d + e)
  {
  }

  predicate Trimmed(s: string) { s != "" ==> !IsSpace(s[0]) && !IsSpace(s[|s| - 1]) }

  lemma {:induction false} TrimTight(pre: string, s: string, post: string)
    requires AllSpace(pre) && AllSpace(post) && s != "" && Trimmed(s)
    ensures Trim(pre + s + post) == s
  {
    TrimLeftDrops(pre, s + post);
    assert pre + s + post == pre + (s + post);
    TrimRightDrops(s, post);
  }

  lemma {:induction false} TrimLeftDrops(pre: string, s: string)
    requires AllSpace(pre) && s != "" && !IsSpace(s[0])
    ensures TrimLeft(pre + s) == s
  {
    if pre == "" {
      assert pre + s == s;
    } else {
      assert (pre + s)[1..] == pre[1..] + s;
      TrimLeftDrops(pre[1..], s);
    }
  }

  lemma {:induction false} TrimRightDrops(s: string, post: string)
    requires AllSpace(post) && s != "" && !IsSpace(s[|s| - 1])
    ensures TrimRight(s + post) == s
    decreases |post|
  {
    if post == "" {
      assert s + post == s;
    } else {
      var shorter := post[..|post| - 1];
      assert (s + post)[..|s + post| - 1] == s + shorter;
      TrimRightDrops(s, shorter);
    }
  }

  lemma {:induction false} TrimRightTail(s: string)
    ensures TrimRight(s) <= s
    ensures TrimRight(s) != "" ==> !IsSpace(TrimRight(s)[|TrimRight(s)| - 1])
    decreases |s|
  {
    if s != "" && IsSpace(s[|s| - 1]) {
      TrimRightTail(s[..|s| - 1]);
    }
  }

  /** The evaluator answers a derivation's outcome on the text it derives. */
  lemma DerivedTextEvaluates<N>(ar: Arith<N>, text: string, e: Expr)
    requires Derivation(e) && Text(e) == Trim(text)
    ensures Evaluate(ar, text) == Outcome(ar, e)
  {
    TextIsTight(e);
    var s := Trim(text);
    assert s[0..|s|] == s;
    ChainComplete(ar, s, 0, 0, e, |s|);
  }

  /**
   Every expression tree, printed with any blanks between its tokens and any
   white space around it, evaluates to the tree's own value or error.
   */
  lemma PrintedTreeEvaluates<N>(ar: Arith<N>, t: Expr, pre: string, post: string)
    requires Spelled(t) && AllSpace(pre) && AllSpace(post)
    ensures Evaluate(ar, pre + Text(Bracketed(t, 0)) + post) == Outcome(ar, t)
  {
    var e := Bracketed(t, 0);
    BracketedIsDerivation(ar, t, 0);
    FlushKeepsMeaning(ar, e);
    FlushText(e);
    TextIsTight(Flush(e));
    TrimTight(pre + Margin(e), Text(Flush(e)), post);
    Regroup(pre, Margin(e), Text(Flush(e)), post);
    DerivedTextEvaluates(ar, pre + Text(e) + post, Flush(e));
  }

  lemma Regroup(a: string, b: string, c: string, d: string)
    ensures a + (b + c) + d == (a + b) + c + d
  {
  }

  /** The evaluator succeeds exactly on the texts of the grammar whose value is in range. */
  lemma SucceedsExactlyOnDerivations<N>(ar: Arith<N>, text: string, v: N)
    ensures Evaluate(ar, text) == Ok(v)
       <==> exists e :: Derivation(e) && Text(e) == Trim(text) && Outcome(ar, e) == Ok(v)
  {
    if Evaluate(ar, text) == Ok(v) {
      var s := Trim(text);
      var r := ChainAt(ar, s, 0, 0);
      ChainSound(ar, s, 0, 0);
      TrimRightTail(TrimLeft(text));
      SkipStopsAtInk(s, r.end);
      assert s[0..r.end] == s;
      assert Derivation(r.tree) && Text(r.tree) == Trim(text);
    }
    forall e | Derivation(e) && Text(e) == Trim(text) && Outcome(ar, e) == Ok(v)
      ensures Evaluate(ar, text) == Ok(v)
    {
      DerivedTextEvaluates(ar, text, e);
    }
  }

  lemma SkipStopsAtInk(s: string, end: nat)
    requires end <= |s| && s != "" && !IsSpace(s[|s| - 1])
    ensures Skip(s, end) == |s| ==> end == |s|
  {
  }

  /** The grammar is unambiguous: a text has at most one derivation. */
  lemma Unambiguous(a: Expr, b: Expr)
    requires Derivation(a) && Derivation(b) && Text(a) == Text(b)
    ensures a == b
  {
    var unit := NeverFails();
    var s := Text(a);
    assert s[0..|s|] == s;
    AlwaysHasValue(a);
    AlwaysHasValue(b);
    ChainComplete(unit, s, 0, 0, a, |s|);
    ChainComplete(unit, s, 0, 0, b, |s|);
  }

  /** An arithmetic in which nothing is zero and every literal is a number. */
  function NeverFails(): Arith<int> {
    Arith((x, y) => 0, (x, y) => 0, (x, y) => 0, (x, y) => 0, (x, y) => 0,
          (x, y) => 0, x => 0, x => false, x => false, t => Some(0), 0, 0)
  }

  lemma {:induction false} AlwaysHasValue(e: Expr)
    ensures Value(NeverFails(), e).Ok?
    decreases e
  {
    match e
    case Binary(l, _, _, r) =>
      AlwaysHasValue(l);
      AlwaysHasValue(r);
    case Sign(_, _, x) => AlwaysHasValue(x);
    case Power(b, _, x) =>
      AlwaysHasValue(b);
      AlwaysHasValue(x);
    case Paren(_, x, _) => AlwaysHasValue(x);
    case _ =>
  }

  /** The tree itself and every tree below it. */
  function Subtrees(e: Expr): set<Expr> {
    match e
    case Binary(l, _, _, r) => {e} + Subtrees(l) + Subtrees(r)
    case Sign(_, _, x) => {e} + Subtrees(x)
    case Power(b, _, x) => {e} + Subtrees(b) + Subtrees(x)
    case Paren(_, x, _) => {e} + Subtrees(x)
    case _ => {e}
  }

  /** d is a division or a remainder whose divisor evaluates to zero. */
  predicate DividesByZero<N>(ar: Arith<N>, d: Expr) {
    d.Binary? && (d.op.Divide? || d.op.Remainder?)
    && Value(ar, d.right).Ok? && IsZero(ar, Value(ar, d.right).value)
  }

  /** The division error is reported exactly when some divisor evaluates to zero. */
  lemma {:induction false} DivisionErrorIff<N>(ar: Arith<N>, e: Expr)
    requires forall n <- Subtrees(e) :: n.Number? ==> ReadNumber(ar, n.literal).Some?
    ensures Value(ar, e) == Err(DivisionByZero) <==> exists d :: d in Subtrees(e) && DividesByZero(ar, d)
    ensures Value(ar, e).Ok? || Value(ar, e) == Err(DivisionByZero)
  {
    match e
    case Binary(l, _, _, r) =>
      DivisionErrorIff(ar, l);
      DivisionErrorIff(ar, r);
      assert DividesByZero(ar, e) ==> e in Subtrees(e);
    case Sign(_, _, x) => DivisionErrorIff(ar, x);
    case Power(b, _, x) =>
      DivisionErrorIff(ar, b);
      DivisionErrorIff(ar, x);
    case Paren(_, x, _) => DivisionErrorIff(ar, x);
    case _ =>
  }

  /** Any tree whose leaves and gaps are spelled right, whatever its shape. */
  predicate Spelled(t: Expr) {
    match t
    case Binary(l, gap, _, r) => AllBlank(gap) && Spelled(l) && Spelled(r)
    case Sign(b, _, x) => AllBlank(b) && Spelled(x)
    case Power(b, gap, x) => AllBlank(gap) && Spelled(b) && Spelled(x)
    case Number(b, literal) => AllBlank(b) && IsLiteral(literal)
    case Constant(b, _, name) => AllBlank(b) && IsConstantName(name)
    case Paren(b, x, closing) => AllBlank(b) && AllBlank(closing) && Spelled(x)
  }

  /** Brackets a subtree exactly where it binds more loosely than its place asks for. */
  function Bracketed(t: Expr, level: nat): Expr {
    var inner :=
      match t
      case Binary(l, gap, op, r) => Binary(Bracketed(l, Level(t)), gap, op, Bracketed(r, Level(t) + 1))
      case Sign(b, negative, x) => Sign(b, negative, Bracketed(x, 2))
      case Power(b, gap, x) => Power(Bracketed(b, 4), gap, Bracketed(x, 2))
      case Paren(b, x, closing) => Paren(b, Bracketed(x, 0), closing)
      case _ => t;
    if Level(t) < level then Paren("", inner, "") else inner
  }

  lemma {:induction false} BracketedIsDerivation<N>(ar: Arith<N>, t: Expr, level: nat)
    requires Spelled(t) && level <= 4
    ensures Derivation(Bracketed(t, level)) && Level(Bracketed(t, level)) >= level
    ensures Value(ar, Bracketed(t, level)) == Value(ar, t)
  {
    match t
    case Binary(l, _, _, r) =>
      BracketedIsDerivation(ar, l, Level(t));
      BracketedIsDerivation(ar, r, Level(t) + 1);
    case Sign(_, _, x) => BracketedIsDerivation(ar, x, 2);
    case Power(b, _, x) =>
      BracketedIsDerivation(ar, b, 4);
      BracketedIsDerivation(ar, x, 2);
    case Paren(_, x, _) => BracketedIsDerivation(ar, x, 0);
    case _ =>
  }

  /**
   On the printed text of a tree whose literals can be read the evaluator
   reports a division error exactly when some divisor of the tree evaluates to
   zero, and no other error but that of a value out of range.
   */
  lemma DivisionReportedIff<N>(ar: Arith<N>, t: Expr, pre: string, post: string)
    requires Spelled(t) && AllSpace(pre) && AllSpace(post)
    requires forall n <- Subtrees(t) :: n.Number? ==> ReadNumber(ar, n.literal).Some?
    ensures var r := Evaluate(ar, pre + Text(Bracketed(t, 0)) + post);
      && (r == Err(DivisionByZero) <==> exists d :: d in Subtrees(t) && DividesByZero(ar, d))
      && (r.Ok? || r == Err(DivisionByZero) || r == Err(OutOfRange))
  {
    hide Evaluate, Text, Bracketed, Value, DividesByZero;
    PrintedTreeEvaluates(ar, t, pre, post);
    DivisionErrorIff(ar, t);
  }

  /** No bracket is added where none is needed. */
  lemma {:induction false} DerivationNeedsNoBrackets(t: Expr, level: nat)
    requires Derivation(t) && Level(t) >= level
    ensures Bracketed(t, level) == t
  {
    match t
    case Binary(l, _, _, r) =>
      DerivationNeedsNoBrackets(l, Level(t));
      DerivationNeedsNoBrackets(r, Level(t) + 1);
    case Sign(_, _, x) => DerivationNeedsNoBrackets(x, 2);
    case Power(b, _, x) =>
      DerivationNeedsNoBrackets(b, 4);
      DerivationNeedsNoBrackets(x, 2);
    case Paren(_, x, _) => DerivationNeedsNoBrackets(x, 0);
    case _ =>
  }

  // ----- What some texts evaluate to ------------------------------------------

  /** A computed number, unless it is out of range. */
  function Answer<N>(ar: Arith<N>, v: N): Result<N, CalcError> { if ar.outOfRange(v) then Err(OutOfRange) else Ok(v) }

  lemma WrittenTextEvaluates<N>(ar: Arith<N>, text: string, e: Expr)
    requires Derivation(e) && Text(e) == text
    requires text != "" && !IsSpace(text[0]) && !IsSpace(text[|text| - 1])
    ensures Evaluate(ar, text) == Outcome(ar, e)
  {
    hide Evaluate, Derivation, Text, IsSpace, Outcome;
    TrimTight("", text, "");
    assert "" + text + "" == text;
    DerivedTextEvaluates(ar, text, e);
  }

  lemma LiteralHasInk(a: string)
    requires IsLiteral(a)
    ensures a != "" && !IsSpace(a[0]) && !IsSpace(a[|a| - 1])
  {
  }

  function Num(a: string): Expr { Number("", a) }

  function Op(l: Expr, op: Operator, r: Expr): Expr { Binary(l, "", op, r) }

  function Pow(b: Expr, x: Expr): Expr { Power(b, "", x) }

  lemma NumIs<N>(ar: Arith<N>, a: string, x: N)
    requires IsLiteral(a) && ar.parseNumber(a) == Some(x)
    ensures Derivation(Num(a)) && Text(Num(a)) == a && Level(Num(a)) == 4 && Value(ar, Num(a)) == Ok(x)
  {
    assert "" + a == a;
  }

  lemma OpIs<N>(ar: Arith<N>, l: Expr, x: N, op: Operator, r: Expr, y: N)
    requires Derivation(l) && Derivation(r) && Value(ar, l) == Ok(x) && Value(ar, r) == Ok(y)
    requires var n := if op.Plus? || op.Minus? then 0 else 1; Level(l) >= n && Level(r) > n
    ensures Derivation(Op(l, op, r)) && Level(Op(l, op, r)) == if op.Plus? || op.Minus? then 0 else 1
    ensures Text(Op(l, op, r)) == Text(l) + [Sigil(op)] + Text(r) && Value(ar, Op(l, op, r)) == Apply(ar, op, x, y)
  {
    assert Text(l) + "" == Text(l);
  }

  lemma PowIs<N>(ar: Arith<N>, b: Expr, x: N, e: Expr, y: N)
    requires Derivation(b) && Derivation(e) && Value(ar, b) == Ok(x) && Value(ar, e) == Ok(y)
    requires Level(b) == 4 && Level(e) >= 2
    ensures Derivation(Pow(b, e)) && Level(Pow(b, e)) == 3
    ensures Text(Pow(b, e)) == Text(b) + "^" + Text(e) && Value(ar, Pow(b, e)) == Ok(ar.pow(x, y))
  {
    assert Text(b) + "" == Text(b);
  }

  lemma SignIs<N>(ar: Arith<N>, negative: bool, e: Expr, x: N)
    requires Derivation(e) && Value(ar, e) == Ok(x) && Level(e) >= 2
    ensures Derivation(Sign("", negative, e))
    ensures Text(Sign("", negative, e)) == (if negative then "-" else "+") + Text(e)
    ensures Value(ar, Sign("", negative, e)) == Ok(if negative then ar.neg(x) else x)
  {
    assert "" + [if negative then '-' else '+'] == if negative then "-" else "+";
  }

  lemma OperationEvaluates<N>(ar: Arith<N>, a: string, x: N, c: char, op: Operator, b: string, y: N)
    requires IsLiteral(a) && IsLiteral(b) && ar.parseNumber(a) == Some(x) && ar.parseNumber(b) == Some(y)
    requires c == Sigil(op)
    ensures Evaluate(ar, a + [c] + b) == InRange(ar, Apply(ar, op, x, y))
  {
    hide Evaluate, IsLiteral, IsSpace, Derivation, Text, Value, Apply, InRange, Level, Num, Op;
    NumIs(ar, a, x);
    NumIs(ar, b, y);
    OpIs(ar, Num(a), x, op, Num(b), y);
    LiteralHasInk(a);
    LiteralHasInk(b);
    var text := a + [c] + b;
    assert text[0] == a[0] && text[|text| - 1] == b[|b| - 1];
    WrittenTextEvaluates(ar, text, Op(Num(a), op, Num(b)));
  }

  /** Each operator between two numbers computes what it says. */
  lemma OperatorsCompute<N>(ar: Arith<N>, a: string, x: N, b: string, y: N)
    requires IsLiteral(a) && IsLiteral(b) && ar.parseNumber(a) == Some(x) && ar.parseNumber(b) == Some(y)
    ensures Evaluate(ar, a + "+" + b) == Answer(ar, ar.add(x, y))
    ensures Evaluate(ar, a + "-" + b) == Answer(ar, ar.sub(x, y))
    ensures Evaluate(ar, a + "*" + b) == Answer(ar, ar.mul(x, y))
    ensures Evaluate(ar, a + "/" + b) == if ar.isZero(y) then Err(DivisionByZero) else Answer(ar, ar.div(x, y))
    ensures Evaluate(ar, a + "%" + b) == if ar.isZero(y) then Err(DivisionByZero) else Answer(ar, ar.mod(x, y))
  {
    hide Evaluate, IsLiteral;
    OperationEvaluates(ar, a, x, '+', Plus, b, y);
    OperationEvaluates(ar, a, x, '-', Minus, b, y);
    OperationEvaluates(ar, a, x, '*', Times, b, y);
    OperationEvaluates(ar, a, x, '/', Divide, b, y);
    OperationEvaluates(ar, a, x, '%', Remainder, b, y);
  }

  /** So do a sign, a power and the two constants. */
  lemma SignsAndPowersCompute<N>(ar: Arith<N>, a: string, x: N, b: string, y: N)
    requires IsLiteral(a) && IsLiteral(b) && ar.parseNumber(a) == Some(x) && ar.parseNumber(b) == Some(y)
    ensures Evaluate(ar, a) == Answer(ar, x)
    ensures Evaluate(ar, "-" + a) == Answer(ar, ar.neg(x)) && Evaluate(ar, "+" + a) == Answer(ar, x)
    ensures Evaluate(ar, a + "^" + b) == Answer(ar, ar.pow(x, y))
  {
    hide Evaluate, IsLiteral, IsSpace, Derivation, Text, Value, Level, Num, Pow;
    NumIs(ar, a, x);
    NumIs(ar, b, y);
    LiteralHasInk(a);
    LiteralHasInk(b);
    WrittenTextEvaluates(ar, a, Num(a));
    SignIs(ar, true, Num(a), x);
    SignIs(ar, false, Num(a), x);
    DashIsInk();
    assert ("-" + a)[|a|] == a[|a| - 1] && ("+" + a)[|a|] == a[|a| - 1];
    WrittenTextEvaluates(ar, "-" + a, Sign("", true, Num(a)));
    WrittenTextEvaluates(ar, "+" + a, Sign("", false, Num(a)));
    PowIs(ar, Num(a), x, Num(b), y);
    var power := a + "^" + b;
    assert power[0] == a[0] && power[|power| - 1] == b[|b| - 1];
    WrittenTextEvaluates(ar, power, Pow(Num(a), Num(b)));
  }

  lemma ConstantsCompute<N>(ar: Arith<N>, name: string)
    requires name in ["pi", "Pi", "pI", "PI", "e", "E"]
    ensures Evaluate(ar, name) == Answer(ar, if |name| == 2 then ar.pi else ar.e)
  {
    hide Evaluate, Lower;
    NamesInLower();
    assert |"pi"| == 2 && |"e"| == 1;
    WrittenTextEvaluates(ar, name, Constant("", false, name));
  }

  lemma NamesInLower()
    ensures Lower("pi") == Lower("Pi") == Lower("pI") == Lower("PI") == "pi" && Lower("e") == Lower("E") == "e"
  {
  }

  lemma ThreeAreTight(a: string, b: string, c: string, first: string, second: string)
    requires IsLiteral(a) && IsLiteral(c)
    ensures var text := a + first + b + second + c;
      text != "" && !IsSpace(text[0]) && !IsSpace(text[|text| - 1])
  {
    hide IsLiteral, IsSpace;
    LiteralHasInk(a);
    LiteralHasInk(c);
    var text := a + first + b + second + c;
    assert text[0] == a[0] && text[|text| - 1] == c[|c| - 1];
  }

  /** Sums group to the left, and so do products. */
  lemma LeftGrouping<N>(ar: Arith<N>, a: string, x: N, b: string, y: N, c: string, z: N)
    requires IsLiteral(a) && IsLiteral(b) && IsLiteral(c)
    requires ar.parseNumber(a) == Some(x) && ar.parseNumber(b) == Some(y) && ar.parseNumber(c) == Some(z)
    ensures Evaluate(ar, a + "-" + b + "-" + c) == Answer(ar, ar.sub(ar.sub(x, y), z))
    ensures Evaluate(ar, a + "*" + b + "*" + c) == Answer(ar, ar.mul(ar.mul(x, y), z))
  {
    hide Evaluate, IsLiteral, IsSpace, Derivation, Text, Value, Level, Num, Op;
    NumIs(ar, a, x);
    NumIs(ar, b, y);
    NumIs(ar, c, z);
    OpIs(ar, Num(a), x, Minus, Num(b), y);
    OpIs(ar, Op(Num(a), Minus, Num(b)), ar.sub(x, y), Minus, Num(c), z);
    ThreeAreTight(a, b, c, "-", "-");
    WrittenTextEvaluates(ar, a + "-" + b + "-" + c, Op(Op(Num(a), Minus, Num(b)), Minus, Num(c)));
    OpIs(ar, Num(a), x, Times, Num(b), y);
    OpIs(ar, Op(Num(a), Times, Num(b)), ar.mul(x, y), Times, Num(c), z);
    ThreeAreTight(a, b, c, "*", "*");
    WrittenTextEvaluates(ar, a + "*" + b + "*" + c, Op(Op(Num(a), Times, Num(b)), Times, Num(c)));
  }

  /** A product binds tighter than a sum, powers group to the right, and a sign is that of the power after it. */
  lemma RightGrouping<N>(ar: Arith<N>, a: string, x: N, b: string, y: N, c: string, z: N)
    requires IsLiteral(a) && IsLiteral(b) && IsLiteral(c)
    requires ar.parseNumber(a) == Some(x) && ar.parseNumber(b) == Some(y) && ar.parseNumber(c) == Some(z)
    ensures Evaluate(ar, a + "+" + b + "*" + c) == Answer(ar, ar.add(x, ar.mul(y, z)))
    ensures Evaluate(ar, a + "^" + b + "^" + c) == Answer(ar, ar.pow(x, ar.pow(y, z)))
    ensures Evaluate(ar, "-" + (a + "^" + c)) == Answer(ar, ar.neg(ar.pow(x, z)))
  {
    hide Evaluate, IsLiteral, IsSpace, Derivation, Text, Value, Level, Num, Op, Pow;
    NumIs(ar, a, x);
    NumIs(ar, b, y);
    NumIs(ar, c, z);
    OpIs(ar, Num(b), y, Times, Num(c), z);
    OpIs(ar, Num(a), x, Plus, Op(Num(b), Times, Num(c)), ar.mul(y, z));
    ThreeAreTight(a, b, c, "+", "*");
    assert a + "+" + (b + "*" + c) == a + "+" + b + "*" + c;
    WrittenTextEvaluates(ar, a + "+" + b + "*" + c, Op(Num(a), Plus, Op(Num(b), Times, Num(c))));
    PowIs(ar, Num(b), y, Num(c), z);
    PowIs(ar, Num(a), x, Pow(Num(b), Num(c)), ar.pow(y, z));
    ThreeAreTight(a, b, c, "^", "^");
    assert a + "^" + (b + "^" + c) == a + "^" + b + "^" + c;
    WrittenTextEvaluates(ar, a + "^" + b + "^" + c, Pow(Num(a), Pow(Num(b), Num(c))));
    PowIs(ar, Num(a), x, Num(c), z);
    SignIs(ar, true, Pow(Num(a), Num(c)), ar.pow(x, z));
    DashIsInk();
    LiteralHasInk(c);
    var text := "-" + (a + "^" + c);
    assert text[|text| - 1] == c[|c| - 1];
    WrittenTextEvaluates(ar, text, Sign("", true, Pow(Num(a), Num(c))));
  }

  lemma DashIsInk()
    ensures !IsSpace('-') && !IsSpace('+')
  {
  }

  /** The white space that is trimmed off: Unicode's property White_Space. */
  lemma TrimmedSpaces(c: char)
    ensures IsSpace(c) <==>
      var n := c as int;
      || 9 <= n <= 13 || n == 32 || n == 133 || n == 160 || n == 5760 || 8192 <= n <= 8202
      || n in {8232, 8233, 8239, 8287, 12288}
  {
  }

  // ----- Where some refusals point --------------------------------------------

  /** A closing bracket that nothing opened is reported at its own place in the trimmed text. */
  lemma StrayBracketIsRefused<N>(ar: Arith<N>, text: string, e: Expr, rest: string)
    requires Derivation(e) && Trim(text) == Text(e) + ")" + rest && Value(ar, e).Ok?
    ensures Evaluate(ar, text) == Err(Unexpected(|Text(e)|))
  {
    hide Text, Derivation, Value;
    var s := Text(e) + ")" + rest;
    var end := |Text(e)|;
    assert s[0..end] == Text(e) && s[end] == ')';
    ChainComplete(ar, s, 0, 0, e, end);
    assert Skip(s, end) == end;
  }

  /** A bracket that nothing closes is reported as that. */
  lemma OpenBracketIsRefused<N>(ar: Arith<N>, text: string, e: Expr)
    requires Derivation(e) && Trim(text) == "(" + Text(e) && Value(ar, e).Ok?
    ensures Evaluate(ar, text) == Err(MissingParenthesis)
  {
    hide Text, Derivation, Value;
    var s := "(" + Text(e);
    assert s[1..|s|] == Text(e) && s[0] == '(';
    ChainComplete(ar, s, 1, 0, e, |s|);
    assert Skip(s, 0) == 0 && Skip(s, |s|) == |s|;
    assert PrimaryAt(ar, s, 0) == Failed(MissingParenthesis);
    assert PowerAt(ar, s, 0) == Failed(MissingParenthesis);
    assert UnaryAt(ar, s, 0) == Failed(MissingParenthesis);
    assert OperandAt(ar, s, 0, 1) == Failed(MissingParenthesis);
    assert ChainAt(ar, s, 0, 1) == Failed(MissingParenthesis);
    assert OperandAt(ar, s, 0, 0) == Failed(MissingParenthesis);
  }

  lemma {:induction false} SpacesTrimAway(text: string)
    requires AllSpace(text)
    ensures TrimLeft(text) == ""
    decreases |text|
  {
    if text != "" {
      SpacesTrimAway(text[1..]);
    }
  }

  /** White space alone is no expression. */
  lemma BlankIsRefused<N>(ar: Arith<N>, text: string)
    requires AllSpace(text)
    ensures Evaluate(ar, text) == Err(ExpressionRequired)
  {
    SpacesTrimAway(text);
  }
}
