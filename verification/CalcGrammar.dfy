/**
  The language of the shell's calculator: concrete syntax with the white space
  written before each token, its rendering as bytes, and its value under checked
  64-bit arithmetic evaluated from left to right.
*/
module CalcGrammar {
  import opened Wrappers

  datatype Error = IntegerOverflow | DivisionByZero | MissingParen | ExpectedNumber | TrailingInput

  datatype Result = Ok(value: int) | Err(error: Error)

  // ---- Checked i64 arithmetic ----

  const I64_MIN: int := -0x8000_0000_0000_0000
  const I64_MAX: int := 0x7FFF_FFFF_FFFF_FFFF

  function Checked(x: int): Result {
    if I64_MIN <= x <= I64_MAX then Ok(x) else Err(IntegerOverflow)
  }

  function Abs(x: int): nat {
    if x >= 0 then x else -x
  }

  /** Division truncating toward zero: divide the magnitudes, then put the sign. */
  function TruncDiv(a: int, b: int): int
    requires b != 0
  {
    if (a < 0) == (b < 0) then Abs(a) / Abs(b) else -(Abs(a) / Abs(b))
  }

  /** The remainder that goes with it: it has the sign of the dividend. */
  function TruncRem(a: int, b: int): int
    requires b != 0
  {
    if a >= 0 then Abs(a) % Abs(b) else -(Abs(a) % Abs(b))
  }

  datatype AddOp = Plus | Minus
  datatype MulOp = Times | Over | Mod

  function ApplyAdd(op: AddOp, a: int, b: int): Result {
    match op
    case Plus => Checked(a + b)
    case Minus => Checked(a - b)
  }

  function ApplyMul(op: MulOp, a: int, b: int): Result {
    match op
    case Times => Checked(a * b)
    case Over => if b == 0 then Err(DivisionByZero) else Checked(TruncDiv(a, b))
    case Mod =>
      if b == 0 then Err(DivisionByZero)
      else if a == I64_MIN && b == -1 then Err(IntegerOverflow)
      else Ok(TruncRem(a, b))
  }

  /** Truncating division: the remainder is smaller than the divisor and never has the sign opposite to the dividend. */
  lemma TruncIsTruncation(a: int, b: int)
    requires b != 0
    ensures a == b * TruncDiv(a, b) + TruncRem(a, b)
    ensures Abs(TruncRem(a, b)) < Abs(b)
    ensures a >= 0 ==> TruncRem(a, b) >= 0
    ensures a <= 0 ==> TruncRem(a, b) <= 0
  {
    var n, m := Abs(a), Abs(b);
    var q: int := n / m;
    assert n == m * q + n % m;
    SignRule(m, q);
  }

  lemma SignRule(m: int, q: int)
    ensures (-m) * q == -(m * q) && m * (-q) == -(m * q) && (-m) * (-q) == m * q
  {
  }

  lemma QuotientBound(n: nat, m: nat)
    requires m >= 2
    ensures 2 * (n / m) <= n
  {
    var q := n / m;
    assert n == m * q + n % m;
    assert (m - 2) * q >= 0;
  }

  /** On i64 operands with a nonzero divisor, division overflows exactly where remainder does: at I64_MIN and -1. */
  lemma DivisionOverflow(a: int, b: int)
    requires I64_MIN <= a <= I64_MAX && b != 0
    ensures ApplyMul(Over, a, b).Err? <==> a == I64_MIN && b == -1
    ensures ApplyMul(Mod, a, b).Err? <==> a == I64_MIN && b == -1
  {
    if Abs(b) == 1 {
      assert Abs(a) / Abs(b) == Abs(a);
    } else {
      QuotientBound(Abs(a), Abs(b));
    }
  }

  // ---- Concrete syntax ----

  datatype Factor =
    | Number(ws: seq<Byte>, digits: seq<Byte>)
    | Positive(ws: seq<Byte>, arg: Factor)
    | Negative(ws: seq<Byte>, arg: Factor)
    | Paren(ws: seq<Byte>, inner: Expr, closeWs: seq<Byte>)

  datatype Term = Term(first: Factor, rest: MulTail)
  datatype MulTail = MulEnd | MulMore(ws: seq<Byte>, op: MulOp, factor: Factor, rest: MulTail)

  datatype Expr = Expr(first: Term, rest: AddTail)
  datatype AddTail = AddEnd | AddMore(ws: seq<Byte>, op: AddOp, term: Term, rest: AddTail)

  /** `u8::is_ascii_whitespace`: space, tab, line feed, form feed, carriage return. */
  predicate IsSpace(b: Byte) {
    b == 32 || b == 9 || b == 10 || b == 12 || b == 13
  }

  predicate IsDigit(b: Byte) {
    48 <= b <= 57
  }

  predicate AllSpace(s: seq<Byte>) {
    forall i :: 0 <= i < |s| ==> IsSpace(s[i])
  }

  predicate AllDigits(s: seq<Byte>) {
    forall i :: 0 <= i < |s| ==> IsDigit(s[i])
  }

  predicate FactorOk(f: Factor) {
    AllSpace(f.ws) &&
    match f
    case Number(_, digits) => digits != [] && AllDigits(digits)
    case Positive(_, g) => FactorOk(g)
    case Negative(_, g) => FactorOk(g)
    case Paren(_, e, w) => ExprOk(e) && AllSpace(w)
  }

  predicate MulTailOk(t: MulTail) {
    t.MulEnd? || (AllSpace(t.ws) && FactorOk(t.factor) && MulTailOk(t.rest))
  }

  predicate TermOk(t: Term) {
    FactorOk(t.first) && MulTailOk(t.rest)
  }

  predicate AddTailOk(t: AddTail) {
    t.AddEnd? || (AllSpace(t.ws) && TermOk(t.term) && AddTailOk(t.rest))
  }

  predicate ExprOk(e: Expr) {
    TermOk(e.first) && AddTailOk(e.rest)
  }

  // ---- Rendering ----

  const PLUS: Byte := 43
  const MINUS: Byte := 45
  const STAR: Byte := 42
  const SLASH: Byte := 47
  const PERCENT: Byte := 37
  const OPEN: Byte := 40
  const CLOSE: Byte := 41

  function AddSign(op: AddOp): Byte {
    if op.Plus? then PLUS else MINUS
  }

  function MulSign(op: MulOp): Byte {
    match op case Times => STAR case Over => SLASH case Mod => PERCENT
  }

  /** The bytes of a factor followed by the bytes `k`; likewise for the other layers. */
  function ShowFactor(f: Factor, k: seq<Byte>): seq<Byte> {
    match f
    case Number(ws, digits) => ws + (digits + k)
    case Positive(ws, g) => ws + ([PLUS] + ShowFactor(g, k))
    case Negative(ws, g) => ws + ([MINUS] + ShowFactor(g, k))
    case Paren(ws, e, w) => ws + ([OPEN] + ShowExpr(e, w + ([CLOSE] + k)))
  }

  function ShowMulTail(t: MulTail, k: seq<Byte>): seq<Byte> {
    if t.MulEnd? then k else t.ws + ([MulSign(t.op)] + ShowFactor(t.factor, ShowMulTail(t.rest, k)))
  }

  function ShowTerm(t: Term, k: seq<Byte>): seq<Byte> {
    ShowFactor(t.first, ShowMulTail(t.rest, k))
  }

  function ShowAddTail(t: AddTail, k: seq<Byte>): seq<Byte> {
    if t.AddEnd? then k else t.ws + ([AddSign(t.op)] + ShowTerm(t.term, ShowAddTail(t.rest, k)))
  }

  function ShowExpr(e: Expr, k: seq<Byte>): seq<Byte> {
    ShowTerm(e.first, ShowAddTail(e.rest, k))
  }

  // ---- Value ----

  function Decimal(digits: seq<Byte>): nat
    requires AllDigits(digits)
  {
    if digits == [] then 0 else 10 * Decimal(digits[..|digits| - 1]) + (digits[|digits| - 1] as int - 48)
  }

  function EvalFactor(f: Factor): Result
    requires FactorOk(f)
  {
    match f
    case Number(_, digits) => Checked(Decimal(digits))
    case Positive(_, g) => EvalFactor(g)
    case Negative(_, g) =>
      (match EvalFactor(g)
       case Err(k) => Err(k)
       case Ok(v) => Checked(-v))
    case Paren(_, e, _) => EvalExpr(e)
  }

  function EvalMulTail(acc: int, t: MulTail): Result
    requires MulTailOk(t)
    decreases t
  {
    if t.MulEnd? then Ok(acc)
    else
      match EvalFactor(t.factor)
      case Err(k) => Err(k)
      case Ok(v) =>
        match ApplyMul(t.op, acc, v)
        case Err(k) => Err(k)
        case Ok(r) => EvalMulTail(r, t.rest)
  }

  function EvalTerm(t: Term): Result
    requires TermOk(t)
  {
    match EvalFactor(t.first)
    case Err(k) => Err(k)
    case Ok(v) => EvalMulTail(v, t.rest)
  }

  function EvalAddTail(acc: int, t: AddTail): Result
    requires AddTailOk(t)
    decreases t
  {
    if t.AddEnd? then Ok(acc)
    else
      match EvalTerm(t.term)
      case Err(k) => Err(k)
      case Ok(v) =>
        match ApplyAdd(t.op, acc, v)
        case Err(k) => Err(k)
        case Ok(r) => EvalAddTail(r, t.rest)
  }

  function EvalExpr(e: Expr): Result
    requires ExprOk(e)
  {
    match EvalTerm(e.first)
    case Err(k) => Err(k)
    case Ok(v) => EvalAddTail(v, e.rest)
  }

  // ---- Every value is an i64 ----

  predicate Fits(r: Result) {
    r.Ok? ==> I64_MIN <= r.value <= I64_MAX
  }

  lemma ApplyMulFits(op: MulOp, a: int, b: int)
    requires I64_MIN <= a <= I64_MAX
    ensures Fits(ApplyMul(op, a, b))
  {
    if op.Mod? && b != 0 {
      assert Abs(a) % Abs(b) <= Abs(a);
    }
  }

  lemma {:induction false} FactorFits(f: Factor)
    requires FactorOk(f)
    ensures Fits(EvalFactor(f))
  {
    match f
    case Number(_, _) =>
    case Positive(_, g) => FactorFits(g);
    case Negative(_, g) => FactorFits(g);
    case Paren(_, e, _) => ExprFits(e);
  }

  lemma {:induction false} MulTailFits(acc: int, t: MulTail)
    requires MulTailOk(t) && I64_MIN <= acc <= I64_MAX
    ensures Fits(EvalMulTail(acc, t))
    decreases t
  {
    if t.MulMore? && EvalFactor(t.factor).Ok? {
      var r := ApplyMul(t.op, acc, EvalFactor(t.factor).value);
      ApplyMulFits(t.op, acc, EvalFactor(t.factor).value);
      if r.Ok? {
        MulTailFits(r.value, t.rest);
      }
    }
  }

  lemma {:induction false} TermFits(t: Term)
    requires TermOk(t)
    ensures Fits(EvalTerm(t))
  {
    FactorFits(t.first);
    if EvalFactor(t.first).Ok? {
      MulTailFits(EvalFactor(t.first).value, t.rest);
    }
  }

  lemma {:induction false} AddTailFits(acc: int, t: AddTail)
    requires AddTailOk(t) && I64_MIN <= acc <= I64_MAX
    ensures Fits(EvalAddTail(acc, t))
    decreases t
  {
    if t.AddMore? && EvalTerm(t.term).Ok? {
      var r := ApplyAdd(t.op, acc, EvalTerm(t.term).value);
      if r.Ok? {
        AddTailFits(r.value, t.rest);
      }
    }
  }

  /** Every value an expression takes is a 64-bit signed integer, so the checked operators see only such operands. */
  lemma {:induction false} ExprFits(e: Expr)
    requires ExprOk(e)
    ensures Fits(EvalExpr(e))
  {
    TermFits(e.first);
    if EvalTerm(e.first).Ok? {
      AddTailFits(EvalTerm(e.first).value, e.rest);
    }
  }
}
