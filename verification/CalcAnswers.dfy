/**
  What the calculator's answers mean: the exact integer value of the expression
  written, in terms of plain arithmetic, decimal numerals and the bytes typed.
*/
module CalcAnswers {
  import opened Wrappers
  import opened CalcGrammar
  import opened CalcParsing

  /** A 64-bit signed integer. */
  predicate InRange(x: int) {
    -0x8000_0000_0000_0000 <= x <= 0x7FFF_FFFF_FFFF_FFFF
  }

  // ---- Laws of the operators ----

  /** A sum takes the second operand back to the first, and a difference likewise; each fails exactly out of range. */
  lemma SumAndDifference(a: int, b: int, r: int)
    ensures ApplyAdd(Plus, a, b) == Ok(r) <==> InRange(r) && r - b == a
    ensures ApplyAdd(Minus, a, b) == Ok(r) <==> InRange(r) && r + b == a
    ensures ApplyAdd(Plus, a, b).Err? ==> ApplyAdd(Plus, a, b) == Err(IntegerOverflow)
    ensures ApplyAdd(Minus, a, b).Err? ==> ApplyAdd(Minus, a, b) == Err(IntegerOverflow)
  {
  }

  /** `a` added up `b` times, or taken away when `b` is negative. */
  function Repeated(a: int, b: int): int
    decreases Abs(b)
  {
    if b == 0 then 0 else if b > 0 then Repeated(a, b - 1) + a else Repeated(a, b + 1) - a
  }

  lemma {:induction false} RepeatedIsProduct(a: int, b: int)
    ensures Repeated(a, b) == a * b
    decreases Abs(b)
  {
    if b == 0 {
    } else if b > 0 {
      RepeatedIsProduct(a, b - 1);
    } else {
      RepeatedIsProduct(a, b + 1);
    }
  }

  /** A product is a repeated sum. */
  lemma Product(a: int, b: int)
    ensures ApplyMul(Times, a, b) == if InRange(Repeated(a, b)) then Ok(Repeated(a, b)) else Err(IntegerOverflow)
  {
    RepeatedIsProduct(a, b);
  }

  /** Division truncates toward zero. */
  function Quot(a: int, b: int): int
    requires b != 0
  {
    if a >= 0 then a / b else -((-a) / b)
  }

  /** `q` and `r` divide `a` by `b` with a remainder smaller than the divisor and without the sign opposite to `a`. */
  predicate Divides(a: int, b: int, q: int, r: int) {
    && a == b * q + r
    && Abs(r) < Abs(b)
    && (a >= 0 ==> r >= 0) && (a <= 0 ==> r <= 0)
  }

  lemma QuotDivides(a: int, b: int)
    requires b != 0
    ensures Divides(a, b, Quot(a, b), a - b * Quot(a, b))
  {
    if a < 0 {
      var q, m := (-a) / b, (-a) % b;
      assert -a == b * q + m;
      assert b * (-q) == -(b * q);
    }
  }

  lemma ScaledBack(n: int, d: int)
    requires n > 0 && -n < n * d < n
    ensures d == 0
  {
    MultipleGrows(n, d);
  }

  lemma ScaledDifference(b: int, q: int, p: int)
    ensures b * (q - p) == b * q - b * p && (-b) * (q - p) == -(b * (q - p))
  {
  }

  lemma DividesOnce(a: int, b: int, q: int, r: int, p: int, s: int)
    requires b != 0 && Divides(a, b, q, r) && Divides(a, b, p, s)
    ensures q == p && r == s
  {
    ScaledDifference(b, q, p);
    assert b * (q - p) == s - r;
    ScaledBack(Abs(b), q - p);
  }

  /** Quotient and remainder of the same operands belong together; a zero divisor is reported, and only the least
      integer by -1 overflows. */
  lemma QuotientAndRemainder(a: int, b: int)
    requires InRange(a)
    ensures b == 0 ==> ApplyMul(Over, a, b) == ApplyMul(Mod, a, b) == Err(DivisionByZero)
    ensures b != 0 && a == -0x8000_0000_0000_0000 && b == -1 ==>
              ApplyMul(Over, a, b) == ApplyMul(Mod, a, b) == Err(IntegerOverflow)
    ensures b != 0 && !(a == -0x8000_0000_0000_0000 && b == -1) ==>
              && ApplyMul(Over, a, b).Ok? && ApplyMul(Mod, a, b).Ok?
              && Divides(a, b, ApplyMul(Over, a, b).value, ApplyMul(Mod, a, b).value)
  {
    if b != 0 {
      DivisionOverflow(a, b);
      TruncIsTruncation(a, b);
    }
  }

  // ---- The exact value of an expression ----

  function ExactAdd(op: AddOp, a: int, b: int): int {
    match op
    case Plus => a + b
    case Minus => a - b
  }

  /** None is a division by zero. */
  function ExactMul(op: MulOp, a: int, b: int): Option<int> {
    match op
    case Times => Some(a * b)
    case Over => if b == 0 then None else Some(Quot(a, b))
    case Mod => if b == 0 then None else Some(a - b * Quot(a, b))
  }

  /** The result the machine forms fits; for a remainder that is the quotient too. */
  predicate MulFits(op: MulOp, a: int, b: int) {
    match op
    case Times => InRange(a * b)
    case Over => b != 0 ==> InRange(Quot(a, b))
    case Mod => b != 0 ==> InRange(Quot(a, b))
  }

  /** The value in the unbounded integers, or None if a divisor is zero. */
  function ExactFactor(f: Factor): Option<int>
    requires FactorOk(f)
  {
    match f
    case Number(_, digits) => Some(Decimal(digits))
    case Positive(_, g) => ExactFactor(g)
    case Negative(_, g) => if ExactFactor(g).Some? then Some(-ExactFactor(g).value) else None
    case Paren(_, e, _) => ExactExpr(e)
  }

  function ExactMulTail(acc: int, t: MulTail): Option<int>
    requires MulTailOk(t)
    decreases t
  {
    if t.MulEnd? then Some(acc)
    else
      match ExactFactor(t.factor)
      case None => None
      case Some(v) =>
        match ExactMul(t.op, acc, v)
        case None => None
        case Some(r) => ExactMulTail(r, t.rest)
  }

  function ExactTerm(t: Term): Option<int>
    requires TermOk(t)
  {
    match ExactFactor(t.first)
    case None => None
    case Some(v) => ExactMulTail(v, t.rest)
  }

  function ExactAddTail(acc: int, t: AddTail): Option<int>
    requires AddTailOk(t)
    decreases t
  {
    if t.AddEnd? then Some(acc)
    else
      match ExactTerm(t.term)
      case None => None
      case Some(v) => ExactAddTail(ExactAdd(t.op, acc, v), t.rest)
  }

  function ExactExpr(e: Expr): Option<int>
    requires ExprOk(e)
  {
    match ExactTerm(e.first)
    case None => None
    case Some(v) => ExactAddTail(v, e.rest)
  }

  /** Every value formed on the way, as far as there is one, is a 64-bit signed integer. */
  predicate FactorInRange(f: Factor)
    requires FactorOk(f)
  {
    match f
    case Number(_, digits) => InRange(Decimal(digits))
    case Positive(_, g) => FactorInRange(g)
    case Negative(_, g) => FactorInRange(g) && (ExactFactor(g).Some? ==> InRange(-ExactFactor(g).value))
    case Paren(_, e, _) => ExprInRange(e)
  }

  predicate MulTailInRange(acc: int, t: MulTail)
    requires MulTailOk(t)
    decreases t
  {
    t.MulMore? ==>
      && FactorInRange(t.factor)
      && match ExactFactor(t.factor)
         case None => true
         case Some(v) =>
           && MulFits(t.op, acc, v)
           && match ExactMul(t.op, acc, v)
              case None => true
              case Some(r) => MulTailInRange(r, t.rest)
  }

  predicate TermInRange(t: Term)
    requires TermOk(t)
  {
    FactorInRange(t.first) && (ExactFactor(t.first).Some? ==> MulTailInRange(ExactFactor(t.first).value, t.rest))
  }

  predicate AddTailInRange(acc: int, t: AddTail)
    requires AddTailOk(t)
    decreases t
  {
    t.AddMore? ==>
      && TermInRange(t.term)
      && match ExactTerm(t.term)
         case None => true
         case Some(v) => InRange(ExactAdd(t.op, acc, v)) && AddTailInRange(ExactAdd(t.op, acc, v), t.rest)
  }

  predicate ExprInRange(e: Expr)
    requires ExprOk(e)
  {
    TermInRange(e.first) && (ExactTerm(e.first).Some? ==> AddTailInRange(ExactTerm(e.first).value, e.rest))
  }

  /** An answer against the exact value: equal to it, or the division by zero, as long as everything fits; an overflow
      where there is an exact value that could not be reached. */
  predicate Exactly(r: Result, exact: Option<int>, inRange: bool) {
    if inRange then r == if exact.Some? then Ok(exact.value) else Err(DivisionByZero)
    else r == Err(IntegerOverflow) || (r == Err(DivisionByZero) && exact.None?)
  }

  lemma AddIsExact(op: AddOp, a: int, b: int)
    ensures Exactly(ApplyAdd(op, a, b), Some(ExactAdd(op, a, b)), InRange(ExactAdd(op, a, b)))
  {
  }

  lemma QuotFits(a: int, b: int)
    requires InRange(a) && b != 0
    ensures InRange(Quot(a, b)) <==> !(a == -0x8000_0000_0000_0000 && b == -1)
  {
    QuotientAndRemainder(a, b);
    QuotDivides(a, b);
    if ApplyMul(Over, a, b).Ok? {
      DividesOnce(a, b, Quot(a, b), a - b * Quot(a, b), ApplyMul(Over, a, b).value, ApplyMul(Mod, a, b).value);
      ApplyMulFits(Over, a, b);
    } else {
      assert Quot(a, b) == 0x8000_0000_0000_0000;
    }
  }

  lemma MulIsExact(op: MulOp, a: int, b: int)
    requires InRange(a)
    ensures Exactly(ApplyMul(op, a, b), ExactMul(op, a, b), MulFits(op, a, b))
  {
    if op.Times? || b == 0 {
      Product(a, b);
      RepeatedIsProduct(a, b);
    } else {
      QuotFits(a, b);
      QuotientAndRemainder(a, b);
      QuotDivides(a, b);
      if ApplyMul(Over, a, b).Ok? {
        DividesOnce(a, b, Quot(a, b), a - b * Quot(a, b), ApplyMul(Over, a, b).value, ApplyMul(Mod, a, b).value);
      }
    }
  }

  lemma {:induction false} FactorIsExact(f: Factor)
    requires FactorOk(f)
    ensures Exactly(EvalFactor(f), ExactFactor(f), FactorInRange(f))
  {
    match f
    case Number(_, _) =>
    case Positive(_, g) => FactorIsExact(g);
    case Negative(_, g) => FactorIsExact(g);
    case Paren(_, e, _) => ExprIsExact(e);
  }

  lemma {:induction false} MulTailIsExact(acc: int, t: MulTail)
    requires MulTailOk(t) && InRange(acc)
    ensures Exactly(EvalMulTail(acc, t), ExactMulTail(acc, t), MulTailInRange(acc, t))
    decreases t
  {
    if t.MulEnd? {
    } else {
      FactorIsExact(t.factor);
      if EvalFactor(t.factor).Ok? {
        var v := EvalFactor(t.factor).value;
        MulIsExact(t.op, acc, v);
        ApplyMulFits(t.op, acc, v);
        if ApplyMul(t.op, acc, v).Ok? {
          MulTailIsExact(ApplyMul(t.op, acc, v).value, t.rest);
        }
      }
    }
  }

  lemma {:induction false} TermIsExact(t: Term)
    requires TermOk(t)
    ensures Exactly(EvalTerm(t), ExactTerm(t), TermInRange(t))
  {
    FactorIsExact(t.first);
    FactorFits(t.first);
    if EvalFactor(t.first).Ok? {
      MulTailIsExact(EvalFactor(t.first).value, t.rest);
    }
  }

  lemma {:induction false} AddTailIsExact(acc: int, t: AddTail)
    requires AddTailOk(t)
    ensures Exactly(EvalAddTail(acc, t), ExactAddTail(acc, t), AddTailInRange(acc, t))
    decreases t
  {
    if t.AddEnd? {
    } else {
      TermIsExact(t.term);
      if EvalTerm(t.term).Ok? {
        AddIsExact(t.op, acc, EvalTerm(t.term).value);
        var r := ApplyAdd(t.op, acc, EvalTerm(t.term).value);
        if r.Ok? {
          AddTailIsExact(r.value, t.rest);
        }
      }
    }
  }

  /** The value of an expression is its exact value, unless a value on the way does not fit 64 bits or a divisor is
      zero; then the answer is that error. */
  lemma {:induction false} ExprIsExact(e: Expr)
    requires ExprOk(e)
    ensures Exactly(EvalExpr(e), ExactExpr(e), ExprInRange(e))
  {
    TermIsExact(e.first);
    if EvalTerm(e.first).Ok? {
      AddTailIsExact(EvalTerm(e.first).value, e.rest);
    }
  }

  /** The calculator answers v exactly when the bytes render an expression of exact value v whose evaluation stays
      within 64 bits. */
  lemma AnswersAreExact(s: seq<Byte>, v: int)
    ensures Calculate(s) == Ok(v) <==> exists e, w :: Renders(s, e, w) && ExactExpr(e) == Some(v) && ExprInRange(e)
  {
    AnswersExactlyRenderings(s, v);
    if Calculate(s) == Ok(v) {
      var e, w :| Renders(s, e, w) && EvalExpr(e) == Ok(v);
      ExprIsExact(e);
    }
    forall e, w | Renders(s, e, w) && ExactExpr(e) == Some(v) && ExprInRange(e)
      ensures Calculate(s) == Ok(v)
    {
      ExprIsExact(e);
      RenderingsAreEvaluated(s, e, w);
    }
  }

  // ---- Numerals ----

  /** The decimal numeral of a number. */
  function Numeral(n: nat): seq<Byte> {
    if n < 10 then [(48 + n) as Byte] else Numeral(n / 10) + [(48 + n % 10) as Byte]
  }

  lemma {:induction false} NumeralReads(n: nat)
    ensures Numeral(n) != [] && AllDigits(Numeral(n)) && Decimal(Numeral(n)) == n
  {
    var d := Numeral(n);
    if n < 10 {
      assert d[..0] == [];
    } else {
      NumeralReads(n / 10);
      assert d[..|d| - 1] == Numeral(n / 10);
    }
  }

  lemma {:induction false} LeadingZero(d: seq<Byte>)
    requires AllDigits(d)
    ensures AllDigits([48 as Byte] + d) && Decimal([48 as Byte] + d) == Decimal(d)
  {
    var z := [48 as Byte] + d;
    if d == [] {
      assert z[..0] == [];
    } else {
      LeadingZero(d[..|d| - 1]);
      assert z[..|z| - 1] == [48 as Byte] + d[..|d| - 1];
    }
  }

  // ---- Answers to what is typed ----

  /** Bytes that go on with a token other than a number, or end. */
  predicate Breaks(k: seq<Byte>) {
    k == [] || (!IsDigit(k[0]) && !IsSpace(k[0]))
  }

  lemma Skipped(k: seq<Byte>)
    requires Breaks(k)
    ensures SkipSpace(k) == k && NoDigit(k)
  {
  }

  lemma TokenFirst(b: Byte, k: seq<Byte>)
    requires !IsSpace(b)
    ensures SkipSpace([b] + k) == [b] + k && Starts([b] + k, b) && ([b] + k)[1..] == k
  {
  }

  lemma FactorReads(n: nat, k: seq<Byte>)
    requires Breaks(k)
    ensures ParseFactor(Numeral(n) + k) == if InRange(n) then Parsed(n, k) else Failed(IntegerOverflow)
  {
    NumeralReads(n);
    var f := Number([], Numeral(n));
    assert [] + (Numeral(n) + k) == Numeral(n) + k;
    assert ShowFactor(f, k) == Numeral(n) + k;
    NumberComplete(f, k);
  }

  /** A number in a term, with whatever goes on. */
  lemma TermReads(n: nat, k: seq<Byte>)
    requires Breaks(k)
    ensures ParseTerm(Numeral(n) + k) == if InRange(n) then ParseMulTail(n, k) else Failed(IntegerOverflow)
  {
    FactorReads(n, k);
  }

  lemma MulStops(acc: int, k: seq<Byte>)
    requires Breaks(k) && !StartsMul(k)
    ensures ParseMulTail(acc, k) == Parsed(acc, k)
  {
    Skipped(k);
  }

  lemma AddStops(acc: int, k: seq<Byte>)
    requires Breaks(k) && !StartsAdd(k)
    ensures ParseAddTail(acc, k) == Parsed(acc, k)
  {
    Skipped(k);
  }

  function MulGoesOn(r: Result, k: seq<Byte>): Parse {
    if r.Ok? then ParseMulTail(r.value, k) else Failed(r.error)
  }

  function AddGoesOn(r: Result, k: seq<Byte>): Parse {
    if r.Ok? then ParseAddTail(r.value, k) else Failed(r.error)
  }

  lemma MulReads(acc: int, b: Byte, n: nat, k: seq<Byte>)
    requires (b == STAR || b == SLASH || b == PERCENT) && InRange(n) && Breaks(k)
    ensures ParseMulTail(acc, [b] + (Numeral(n) + k)) == MulGoesOn(ApplyMul(MulOpOf(b), acc, n), k)
  {
    TokenFirst(b, Numeral(n) + k);
    FactorReads(n, k);
  }

  lemma AddReads(acc: int, b: Byte, u: seq<Byte>)
    requires b == PLUS || b == MINUS
    ensures ParseAddTail(acc, [b] + u) ==
            if ParseTerm(u).Failed? then ParseTerm(u)
            else AddGoesOn(ApplyAdd(AddOpOf(b), acc, ParseTerm(u).value), ParseTerm(u).rest)
  {
    TokenFirst(b, u);
  }

  lemma ExprReads(n: nat, k: seq<Byte>)
    requires InRange(n) && Breaks(k)
    ensures ParseExpr(Numeral(n) + k) ==
            if ParseMulTail(n, k).Failed? then ParseMulTail(n, k)
            else ParseAddTail(ParseMulTail(n, k).value, ParseMulTail(n, k).rest)
  {
    TermReads(n, k);
  }

  lemma Ends(d: seq<Byte>)
    ensures d + [] == d
  {
  }

  /** A numeral is answered by its number, or by an overflow past 2^63 - 1. */
  lemma AnswersNumeral(n: nat)
    ensures Calculate(Numeral(n)) == if n <= 0x7FFF_FFFF_FFFF_FFFF then Ok(n) else Err(IntegerOverflow)
  {
    Ends(Numeral(n));
    TermReads(n, []);
    MulStops(n, []);
    AddStops(n, []);
  }

  /** Two numerals with an operator between them. */
  function Infix(a: nat, operator: Byte, b: nat): seq<Byte> {
    Numeral(a) + ([operator] + Numeral(b))
  }

  lemma InfixAdd(a: nat, sign: Byte, b: nat)
    requires InRange(a) && InRange(b) && (sign == PLUS || sign == MINUS)
    ensures Calculate(Infix(a, sign, b)) == ApplyAdd(AddOpOf(sign), a, b)
  {
    Ends(Numeral(b));
    ExprReads(a, [sign] + Numeral(b));
    MulStops(a, [sign] + Numeral(b));
    AddReads(a, sign, Numeral(b));
    TermReads(b, []);
    MulStops(b, []);
    var r := ApplyAdd(AddOpOf(sign), a, b);
    if r.Ok? {
      AddStops(r.value, []);
    }
  }

  lemma InfixMul(a: nat, sign: Byte, b: nat)
    requires InRange(a) && InRange(b) && (sign == STAR || sign == SLASH || sign == PERCENT)
    ensures Calculate(Infix(a, sign, b)) == ApplyMul(MulOpOf(sign), a, b)
  {
    Ends(Numeral(b));
    ExprReads(a, [sign] + Numeral(b));
    MulReads(a, sign, b, []);
    var r := ApplyMul(MulOpOf(sign), a, b);
    if r.Ok? {
      MulStops(r.value, []);
      AddStops(r.value, []);
    }
  }

  lemma NaturalQuotient(a: nat, b: nat)
    requires InRange(a) && InRange(b) && b != 0
    ensures ApplyMul(Over, a, b) == Ok(a / b) && ApplyMul(Mod, a, b) == Ok(a % b)
  {
    MulIsExact(Over, a, b);
    MulIsExact(Mod, a, b);
    QuotFits(a, b);
    assert a == b * (a / b) + a % b;
  }

  /** The operators, by the bytes that stand for them: 43 is `+` and 45 is `-`. */
  lemma AnswersSums(a: nat, b: nat)
    requires a <= 0x7FFF_FFFF_FFFF_FFFF && b <= 0x7FFF_FFFF_FFFF_FFFF
    ensures Calculate(Infix(a, 43, b)) == if a + b <= 0x7FFF_FFFF_FFFF_FFFF then Ok(a + b) else Err(IntegerOverflow)
    ensures Calculate(Infix(a, 45, b)) == Ok(a - b)
  {
    InfixAdd(a, 43, b);
    InfixAdd(a, 45, b);
  }

  /** 42 is `*`. */
  lemma AnswersProducts(a: nat, b: nat)
    requires a <= 0x7FFF_FFFF_FFFF_FFFF && b <= 0x7FFF_FFFF_FFFF_FFFF
    ensures Calculate(Infix(a, 42, b)) == if a * b <= 0x7FFF_FFFF_FFFF_FFFF then Ok(a * b) else Err(IntegerOverflow)
  {
    InfixMul(a, 42, b);
    assert a * b >= 0;
  }

  /** 47 is `/` and 37 is `%`. */
  lemma AnswersQuotients(a: nat, b: nat)
    requires a <= 0x7FFF_FFFF_FFFF_FFFF && b <= 0x7FFF_FFFF_FFFF_FFFF
    ensures Calculate(Infix(a, 47, b)) == if b == 0 then Err(DivisionByZero) else Ok(a / b)
    ensures Calculate(Infix(a, 37, b)) == if b == 0 then Err(DivisionByZero) else Ok(a % b)
  {
    InfixMul(a, 47, b);
    InfixMul(a, 37, b);
    if b != 0 {
      NaturalQuotient(a, b);
    }
  }

  /** A multiplication binds before the addition to its left. */
  lemma AnswersPrecedence(a: nat, b: nat, c: nat)
    requires InRange(a) && InRange(b) && InRange(c)
    ensures Calculate(Numeral(a) + ([43] + Infix(b, 42, c))) ==
            if InRange(b * c) && InRange(a + b * c) then Ok(a + b * c) else Err(IntegerOverflow)
  {
    var u := Infix(b, 42, c);
    ExprReads(a, [43] + u);
    MulStops(a, [43] + u);
    AddReads(a, 43, u);
    TermReads(b, [42] + Numeral(c));
    Ends(Numeral(c));
    MulReads(b, 42, c, []);
    if InRange(b * c) {
      MulStops(b * c, []);
      AddStops(a + b * c, []);
    }
  }

  lemma DifferenceEnds(acc: int, c: nat, k: seq<Byte>)
    requires InRange(c) && Breaks(k) && !StartsAdd(k) && !StartsMul(k)
    ensures ParseAddTail(acc, [45] + (Numeral(c) + k)) == if InRange(acc - c) then Parsed(acc - c, k) else Failed(IntegerOverflow)
  {
    AddReads(acc, 45, Numeral(c) + k);
    TermReads(c, k);
    MulStops(c, k);
    AddStops(acc - c, k);
  }

  lemma DifferenceGoesOn(a: nat, b: nat, w: seq<Byte>)
    requires InRange(a) && InRange(b) && Breaks(w) && !StartsMul(w)
    ensures ParseExpr(Numeral(a) + ([45] + (Numeral(b) + w))) == ParseAddTail(a - b, w)
  {
    var u := Numeral(b) + w;
    ExprReads(a, [45] + u);
    MulStops(a, [45] + u);
    AddReads(a, 45, u);
    TermReads(b, w);
    MulStops(b, w);
  }

  /** Subtractions are done from the left. */
  lemma AnswersFromTheLeft(a: nat, b: nat, c: nat)
    requires InRange(a) && InRange(b) && InRange(c)
    ensures Calculate(Numeral(a) + ([45] + (Numeral(b) + ([45] + Numeral(c))))) ==
            if InRange(a - b - c) then Ok(a - b - c) else Err(IntegerOverflow)
  {
    Ends(Numeral(c));
    DifferenceGoesOn(a, b, [45] + Numeral(c));
    DifferenceEnds(a - b, c, []);
  }

  /** Unless parentheses say otherwise. */
  lemma AnswersParentheses(a: nat, b: nat, c: nat)
    requires InRange(a) && InRange(b) && InRange(c)
    ensures Calculate(Numeral(a) + ([45] + ([40] + (Numeral(b) + ([45] + (Numeral(c) + [41])))))) ==
            if InRange(a - (b - c)) then Ok(a - (b - c)) else Err(IntegerOverflow)
  {
    var inner := Numeral(b) + ([45] + (Numeral(c) + [41]));
    ExprReads(a, [45] + ([40] + inner));
    MulStops(a, [45] + ([40] + inner));
    AddReads(a, 45, [40] + inner);
    ParenReads(b, c);
    assert ParseTerm([40] + inner) == ParseMulTail(b - c, []);
    MulStops(b - c, []);
    AddStops(a - (b - c), []);
  }

  lemma ParenReads(b: nat, c: nat)
    requires InRange(b) && InRange(c)
    ensures ParseFactor([40] + (Numeral(b) + ([45] + (Numeral(c) + [41])))) == Parsed(b - c, [])
  {
    var w := [45] + (Numeral(c) + [41]);
    ExprReads(b, w);
    MulStops(b, w);
    DifferenceEnds(b, c, [41]);
    TokenFirst(40, Numeral(b) + w);
    Skipped([41]);
  }

  /** A sign in front: `-` negates, `+` does nothing. */
  lemma AnswersSigns(n: nat)
    requires InRange(n)
    ensures Calculate([45] + Numeral(n)) == Ok(0 - n) && Calculate([43] + Numeral(n)) == Ok(n)
  {
    Ends(Numeral(n));
    FactorReads(n, []);
    TokenFirst(45, Numeral(n));
    TokenFirst(43, Numeral(n));
    assert ParseFactor([45] + Numeral(n)) == Parsed(0 - n, []);
    assert ParseFactor([43] + Numeral(n)) == Parsed(n, []);
    FactorAlone([45] + Numeral(n));
    FactorAlone([43] + Numeral(n));
  }

  lemma FactorAlone(s: seq<Byte>)
    requires ParseFactor(s).Parsed? ==> ParseFactor(s).rest == []
    ensures Calculate(s) == if ParseFactor(s).Parsed? then Ok(ParseFactor(s).value) else Err(ParseFactor(s).error)
  {
    if ParseFactor(s).Parsed? {
      var v := ParseFactor(s).value;
      MulStops(v, []);
      AddStops(v, []);
      assert ParseTerm(s) == Parsed(v, []);
      assert ParseExpr(s) == Parsed(v, []);
    } else {
      assert ParseTerm(s) == ParseFactor(s);
      assert ParseExpr(s) == ParseFactor(s);
    }
  }

  // ---- White space and errors ----

  /** Space, tab, line feed, form feed and carriage return in front make no difference. */
  lemma SpaceInFront(b: Byte, s: seq<Byte>)
    requires b == 32 || b == 9 || b == 10 || b == 12 || b == 13
    ensures Calculate([b] + s) == Calculate(s)
  {
    assert ([b] + s)[1..] == s;
    assert SkipSpace([b] + s) == SkipSpace(s);
    assert ParseNumber([b] + s) == ParseNumber(s);
    assert ParseFactor([b] + s) == ParseFactor(s);
    assert ParseTerm([b] + s) == ParseTerm(s);
    assert ParseExpr([b] + s) == ParseExpr(s);
  }

  /** A text that begins with none of these, nor with a digit, a sign or an opening parenthesis, has no number to begin
      with; neither has an empty one. */
  lemma NumberExpected(s: seq<Byte>)
    requires s != [] ==> s[0] !in {9, 10, 12, 13, 32} && s[0] !in {40, 43, 45} && !(48 <= s[0] <= 57)
    ensures Calculate(s) == Err(ExpectedNumber)
  {
    assert SkipSpace(s) == s;
    assert LeadingDigits(s) == 0;
    assert ParseFactor(s) == ParseNumber(s) == Failed(ExpectedNumber);
    FactorAlone(s);
  }

  /** An opening parenthesis with nothing but a whole expression after it is not closed. */
  lemma ParenExpected(e: Expr)
    requires ExprOk(e)
    ensures Calculate([40] + ShowExpr(e, [])) == if EvalExpr(e).Ok? then Err(MissingParen) else EvalExpr(e)
  {
    var s := [40] + ShowExpr(e, []);
    TokenFirst(40, ShowExpr(e, []));
    ExprComplete(e, []);
    assert ParseFactor(s) == Failed(if EvalExpr(e).Ok? then MissingParen else EvalExpr(e).error);
    FactorAlone(s);
  }

  /** A closing parenthesis after a whole expression is left over. */
  lemma LeftOver(e: Expr)
    requires ExprOk(e)
    ensures Calculate(ShowExpr(e, [41])) == if EvalExpr(e).Ok? then Err(TrailingInput) else EvalExpr(e)
  {
    Skipped([41]);
    ExprComplete(e, [41]);
  }
}
