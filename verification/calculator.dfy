/**
 The calculator tool of the agent nodes: a recursive-descent evaluator that
 computes while it parses (nodes/ai.go).

 The number type is a parameter, so every result below holds for IEEE doubles
 with `math.Pow` and `math.Mod` and for any other arithmetic. A derivation of
 the code's grammar is an `Expr`; it keeps the blanks in front of every token,
 so that a derivation determines the text it derives.
 */
module Calculator {
  import opened Wrappers

  /** The arithmetic the evaluator computes with. */
  datatype Arith<!N> = Arith(
    add: (N, N) -> N, sub: (N, N) -> N, mul: (N, N) -> N,
    div: (N, N) -> N, mod: (N, N) -> N, pow: (N, N) -> N,
    neg: N -> N, isZero: N -> bool, outOfRange: N -> bool,
    parseNumber: string -> Option<N>, pi: N, e: N)

  datatype CalcError =
    | ExpressionRequired
    | UnexpectedEnd
    | MissingParenthesis
    | Unexpected(offset: nat)
    | InvalidNumber(literal: string)
    | DivisionByZero
    | OutOfRange

  datatype Operator = Plus | Minus | Times | Divide | Remainder

  datatype Expr =
    | Binary(left: Expr, gap: string, op: Operator, right: Expr)
    | Sign(blanks: string, negative: bool, operand: Expr)
    | Power(base: Expr, gap: string, exponent: Expr)
    | Number(blanks: string, literal: string)
    | Constant(blanks: string, dot: bool, name: string)
    | Paren(blanks: string, inner: Expr, closing: string)

  // ----- Characters -------------------------------------------------------

  predicate IsBlank(c: char) { c == ' ' || c == '\t' }

  predicate IsDigit(c: char) { '0' <= c <= '9' }

  predicate IsLetter(c: char) { 'a' <= c <= 'z' || 'A' <= c <= 'Z' }

  /** Unicode white space, which is what the input is trimmed of. */
  predicate IsSpace(c: char) {
    '\t' <= c <= '\r' || c == ' ' || c == '\U{85}' || c == '\U{A0}' || c == '\U{1680}'
    || '\U{2000}' <= c <= '\U{200A}' || c == '\U{2028}' || c == '\U{2029}'
    || c == '\U{202F}' || c == '\U{205F}' || c == '\U{3000}'
  }

  predicate AllBlank(s: string) { forall k :: 0 <= k < |s| ==> IsBlank(s[k]) }

  predicate AllSpace(s: string) { forall k :: 0 <= k < |s| ==> IsSpace(s[k]) }

  function TrimLeft(s: string): string {
    if s != "" && IsSpace(s[0]) then TrimLeft(s[1..]) else s
  }

  function TrimRight(s: string): string {
    if s != "" && IsSpace(s[|s| - 1]) then TrimRight(s[..|s| - 1]) else s
  }

  function Trim(s: string): string { TrimRight(TrimLeft(s)) }

  function LowerChar(c: char): char {
    if 'A' <= c <= 'Z' then c - 'A' + 'a' else c
  }

  function Lower(s: string): (r: string)
    ensures |r| == |s| && forall i :: 0 <= i < |s| ==> r[i] == LowerChar(s[i])
  {
    if s == "" then "" else [LowerChar(s[0])] + Lower(s[1..])
  }

  // ----- The grammar ------------------------------------------------------

  function Sigil(op: Operator): char {
    match op
    case Plus => '+'
    case Minus => '-'
    case Times => '*'
    case Divide => '/'
    case Remainder => '%'
  }

  /** How tightly a form binds: sum, product, unary, power, primary. */
  function Level(e: Expr): nat {
    match e
    case Binary(_, _, op, _) => if op.Plus? || op.Minus? then 0 else 1
    case Sign(_, _, _) => 2
    case Power(_, _, _) => 3
    case _ => 4
  }

  predicate HasDigit(s: string) { exists k :: 0 <= k < |s| && IsDigit(s[k]) }

  /** Digits around at most one dot, with at least one digit. */
  predicate IsLiteral(s: string) {
    && (forall k :: 0 <= k < |s| ==> IsDigit(s[k]) || s[k] == '.')
    && HasDigit(s)
    && AtMostOneDot(s)
  }

  predicate AtMostOneDot(s: string) {
    forall i, j :: 0 <= i < j < |s| ==> !(s[i] == '.' && s[j] == '.')
  }

  predicate IsConstantName(name: string) { Lower(name) == "pi" || Lower(name) == "e" }

  /** e is a derivation of the evaluator's grammar. */
  predicate Derivation(e: Expr) {
    match e
    case Binary(l, gap, op, r) =>
      Derivation(l) && Derivation(r) && AllBlank(gap) && Level(l) >= Level(e) && Level(r) > Level(e)
    case Sign(b, _, x) => AllBlank(b) && Derivation(x) && Level(x) >= 2
    case Power(b, gap, x) => Derivation(b) && Derivation(x) && AllBlank(gap) && Level(b) == 4 && Level(x) >= 2
    case Number(b, literal) => AllBlank(b) && IsLiteral(literal)
    case Constant(b, _, name) => AllBlank(b) && IsConstantName(name)
    case Paren(b, x, closing) => AllBlank(b) && AllBlank(closing) && Derivation(x)
  }

  /** The text a derivation derives. */
  function Text(e: Expr): string {
    match e
    case Binary(l, gap, op, r) => Text(l) + gap + [Sigil(op)] + Text(r)
    case Sign(b, negative, x) => b + [if negative then '-' else '+'] + Text(x)
    case Power(b, gap, x) => Text(b) + gap + ['^'] + Text(x)
    case Number(b, literal) => b + literal
    case Constant(b, dot, name) => b + (if dot then "." else "") + name
    case Paren(b, x, closing) => b + ['('] + Text(x) + closing + [')']
  }

  /** The blanks in front of the first token. */
  function Margin(e: Expr): string {
    match e
    case Binary(l, _, _, _) => Margin(l)
    case Power(b, _, _) => Margin(b)
    case _ => e.blanks
  }

  // ----- The value of a tree ----------------------------------------------

  function Negate<N>(ar: Arith<N>, x: N): N { ar.neg(x) }

  function Raise<N>(ar: Arith<N>, base: N, exponent: N): N { ar.pow(base, exponent) }

  function IsZero<N>(ar: Arith<N>, x: N): bool { ar.isZero(x) }

  function IsOutOfRange<N>(ar: Arith<N>, x: N): bool { ar.outOfRange(x) }

  function ReadNumber<N>(ar: Arith<N>, literal: string): Option<N> { ar.parseNumber(literal) }

  function NamedValue<N>(ar: Arith<N>, name: string): N { if Lower(name) == "pi" then ar.pi else ar.e }

  function Apply<N>(ar: Arith<N>, op: Operator, l: N, r: N): (v: Result<N, CalcError>)
    ensures v == Err(DivisionByZero) <==> (op.Divide? || op.Remainder?) && IsZero(ar, r)
    ensures v.Ok? || v == Err(DivisionByZero)
  {
    match op
    case Plus => Ok(ar.add(l, r))
    case Minus => Ok(ar.sub(l, r))
    case Times => Ok(ar.mul(l, r))
    case Divide => if IsZero(ar, r) then Err(DivisionByZero) else Ok(ar.div(l, r))
    case Remainder => if IsZero(ar, r) then Err(DivisionByZero) else Ok(ar.mod(l, r))
  }

  function Value<N>(ar: Arith<N>, e: Expr): Result<N, CalcError> {
    match e
    case Binary(l, _, op, r) =>
      var lv := Value(ar, l);
      if lv.Err? then lv else
      var rv := Value(ar, r);
      if rv.Err? then rv else Apply(ar, op, lv.value, rv.value)
    case Sign(_, negative, x) =>
      var v := Value(ar, x);
      if v.Ok? && negative then Ok(Negate(ar, v.value)) else v
    case Power(b, _, x) =>
      var bv := Value(ar, b);
      if bv.Err? then bv else
      var xv := Value(ar, x);
      if xv.Err? then xv else Ok(Raise(ar, bv.value, xv.value))
    case Number(_, literal) =>
      var n := ReadNumber(ar, literal);
      if n.None? then Err(InvalidNumber(literal)) else Ok(n.value)
    case Constant(_, _, name) => Ok(NamedValue(ar, name))
    case Paren(_, x, _) => Value(ar, x)
  }

  function InRange<N>(ar: Arith<N>, v: Result<N, CalcError>): Result<N, CalcError> {
    if v.Ok? && IsOutOfRange(ar, v.value) then Err(OutOfRange) else v
  }

  /** What evaluating a tree answers in the end. */
  function Outcome<N>(ar: Arith<N>, e: Expr): Result<N, CalcError> { InRange(ar, Value(ar, e)) }

  // ----- The parser, building the derivation it follows --------------------

  datatype Parsed<+N> = Tree(tree: Expr, value: N, end: nat) | Failed(error: CalcError)

  function Skip(s: string, i: nat): (j: nat)
    requires i <= |s|
    ensures i <= j <= |s| && (forall k :: i <= k < j ==> IsBlank(s[k]))
    ensures j == |s| || !IsBlank(s[j])
    decreases |s| - i
  {
    if i < |s| && IsBlank(s[i]) then Skip(s, i + 1) else i
  }

  /** Where the longest run of digits with at most one dot ends. */
  function NumberEnd(s: string, i: nat, seenDot: bool): (n: nat)
    requires i <= |s|
    ensures i <= n <= |s|
    ensures forall k :: i <= k < n ==> IsDigit(s[k]) || s[k] == '.'
    ensures seenDot ==> forall k :: i <= k < n ==> s[k] != '.'
    ensures forall k, m :: i <= k < m < n ==> !(s[k] == '.' && s[m] == '.')
    decreases |s| - i
  {
    if i < |s| && IsDigit(s[i]) then NumberEnd(s, i + 1, seenDot)
    else if i < |s| && s[i] == '.' && !seenDot then NumberEnd(s, i + 1, true)
    else i
  }

  function LettersEnd(s: string, i: nat): (n: nat)
    requires i <= |s|
    ensures i <= n <= |s|
    ensures forall k :: i <= k < n ==> IsLetter(s[k])
    ensures n == |s| || !IsLetter(s[n])
    decreases |s| - i
  {
    if i < |s| && IsLetter(s[i]) then LettersEnd(s, i + 1) else i
  }

  /** A parse consumes something and stays in the text. */
  predicate Advances<N>(s: string, i: nat, r: Parsed<N>) { r.Tree? ==> i < r.end <= |s| }

  function OperatorAt(s: string, j: nat): Option<Operator>
    requires j <= |s|
  {
    if j == |s| then None else
    match s[j]
    case '+' => Some(Plus)
    case '-' => Some(Minus)
    case '*' => Some(Times)
    case '/' => Some(Divide)
    case '%' => Some(Remainder)
    case _ => None
  }

  function OpLevel(op: Operator): nat { if op.Plus? || op.Minus? then 0 else 1 }

  /** parseSum is level 0 and parseProduct level 1. */
  function ChainAt<N>(ar: Arith<N>, s: string, i: nat, level: nat): (r: Parsed<N>)
    requires i <= |s| && level <= 1
    ensures Advances(s, i, r)
    decreases |s| - i, 10 - level
  {
    var first := OperandAt(ar, s, i, level);
    if first.Failed? then first else RestAt(ar, s, i, level, first.tree, first.value, first.end)
  }

  function OperandAt<N>(ar: Arith<N>, s: string, i: nat, level: nat): (r: Parsed<N>)
    requires i <= |s| && level <= 1
    ensures Advances(s, i, r)
    decreases |s| - i, 10 - level, 0
  {
    if level == 0 then ChainAt(ar, s, i, 1) else UnaryAt(ar, s, i)
  }

  /** The chain's loop, with the operands read so far folded into left and its value. */
  function RestAt<N>(ar: Arith<N>, s: string, i: nat, level: nat, left: Expr, value: N, end: nat): (r: Parsed<N>)
    requires i < end <= |s| && level <= 1
    ensures Advances(s, i, r)
    decreases |s| - end, 10 - level, 1
  {
    var j := Skip(s, end);
    var op := OperatorAt(s, j);
    if op.Some? && OpLevel(op.value) == level then
      var right := OperandAt(ar, s, j + 1, level);
      if right.Failed? then right else
      var v := Apply(ar, op.value, value, right.value);
      if v.Err? then Failed(v.error) else
      RestAt(ar, s, i, level, Binary(left, s[end..j], op.value, right.tree), v.value, right.end)
    else Tree(left, value, end)
  }

  function UnaryAt<N>(ar: Arith<N>, s: string, i: nat): (r: Parsed<N>)
    requires i <= |s|
    ensures Advances(s, i, r)
    decreases |s| - i, 8
  {
    var j := Skip(s, i);
    if j < |s| && (s[j] == '+' || s[j] == '-') then
      var operand := UnaryAt(ar, s, j + 1);
      if operand.Failed? then operand else
      var value := if s[j] == '-' then Negate(ar, operand.value) else operand.value;
      Tree(Sign(s[i..j], s[j] == '-', operand.tree), value, operand.end)
    else PowerAt(ar, s, i)
  }

  function PowerAt<N>(ar: Arith<N>, s: string, i: nat): (r: Parsed<N>)
    requires i <= |s|
    ensures Advances(s, i, r)
    decreases |s| - i, 7
  {
    var base := PrimaryAt(ar, s, i);
    if base.Failed? then base else
    var j := Skip(s, base.end);
    if j < |s| && s[j] == '^' then
      var exponent := UnaryAt(ar, s, j + 1);
      if exponent.Failed? then exponent else
      Tree(Power(base.tree, s[base.end..j], exponent.tree), Raise(ar, base.value, exponent.value), exponent.end)
    else base
  }

  function PrimaryAt<N>(ar: Arith<N>, s: string, i: nat): (r: Parsed<N>)
    requires i <= |s|
    ensures Advances(s, i, r)
    decreases |s| - i, 6
  {
    var j := Skip(s, i);
    if j == |s| then Failed(UnexpectedEnd)
    else if s[j] == '(' then
      var inner := ChainAt(ar, s, j + 1, 0);
      if inner.Failed? then inner else
      var k := Skip(s, inner.end);
      if k == |s| || s[k] != ')' then Failed(MissingParenthesis) else
      Tree(Paren(s[i..j], inner.tree, s[inner.end..k]), inner.value, k + 1)
    else AtomAt(ar, s, i, j)
  }

  /** A number or a named constant at j, after the blanks from i. */
  function AtomAt<N>(ar: Arith<N>, s: string, i: nat, j: nat): (r: Parsed<N>)
    requires i <= j < |s| && AllBlank(s[i..j])
    ensures Advances(s, i, r)
  {
    var n := NumberEnd(s, j, false);
    var literal := s[j..n];
    if HasDigit(literal) then
      var v := ReadNumber(ar, literal);
      if v.None? then Failed(InvalidNumber(literal)) else
      Tree(Number(s[i..j], literal), v.value, n)
    else
      var m := LettersEnd(s, n);
      var name := s[n..m];
      if !IsConstantName(name) then Failed(Unexpected(n)) else
      Tree(Constant(s[i..j], literal != "", name), NamedValue(ar, name), m)
  }

  function Evaluate<N>(ar: Arith<N>, text: string): Result<N, CalcError> {
    var s := Trim(text);
    if s == "" then Err(ExpressionRequired) else
    var r := ChainAt(ar, s, 0, 0);
    if r.Failed? then Err(r.error) else
    var j := Skip(s, r.end);
    if j != |s| then Err(Unexpected(j)) else InRange(ar, Ok(r.value))
  }
}
