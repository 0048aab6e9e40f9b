/**
  The recursive-descent parser as a function from the bytes still unread, and the
  two halves of its correctness: what it accepts is a rendering with that value,
  and on every rendering it returns the value, or the error, of the expression.
*/
module CalcParsing {
  import opened Wrappers
  import opened CalcGrammar

  /** A value and the bytes left unread, or the error reported. */
  datatype Parse = Parsed(value: int, rest: seq<Byte>) | Failed(error: Error)

  function SkipSpace(s: seq<Byte>): (r: seq<Byte>)
    ensures |r| <= |s|
    ensures r == [] || !IsSpace(r[0])
  {
    if s == [] || !IsSpace(s[0]) then s else SkipSpace(s[1..])
  }

  predicate Starts(s: seq<Byte>, b: Byte) {
    s != [] && s[0] == b
  }

  function LeadingDigits(s: seq<Byte>): (n: nat)
    ensures n <= |s|
    ensures forall i :: 0 <= i < n ==> IsDigit(s[i])
    ensures n < |s| ==> !IsDigit(s[n])
  {
    if s == [] || !IsDigit(s[0]) then 0 else 1 + LeadingDigits(s[1..])
  }

  function ParseNumber(s: seq<Byte>): (p: Parse)
    ensures p.Parsed? ==> |p.rest| < |s|
  {
    var t := SkipSpace(s);
    var n := LeadingDigits(t);
    if n == 0 then Failed(ExpectedNumber)
    else
      match Checked(Decimal(t[..n]))
      case Err(k) => Failed(k)
      case Ok(v) => Parsed(v, t[n..])
  }

  function ParseFactor(s: seq<Byte>): (p: Parse)
    ensures p.Parsed? ==> |p.rest| < |s|
    decreases |s|, 0
  {
    var t := SkipSpace(s);
    if Starts(t, PLUS) then ParseFactor(t[1..])
    else if Starts(t, MINUS) then
      match ParseFactor(t[1..])
      case Failed(k) => Failed(k)
      case Parsed(v, rest) => if Checked(-v).Ok? then Parsed(-v, rest) else Failed(IntegerOverflow)
    else if Starts(t, OPEN) then
      match ParseExpr(t[1..])
      case Failed(k) => Failed(k)
      case Parsed(v, rest) =>
        var u := SkipSpace(rest);
        if Starts(u, CLOSE) then Parsed(v, u[1..]) else Failed(MissingParen)
    else ParseNumber(s)
  }

  predicate StartsMul(t: seq<Byte>) {
    Starts(t, STAR) || Starts(t, SLASH) || Starts(t, PERCENT)
  }

  function MulOpOf(b: Byte): MulOp {
    if b == STAR then Times else if b == SLASH then Over else Mod
  }

  function ParseMulTail(acc: int, s: seq<Byte>): (p: Parse)
    ensures p.Parsed? ==> |p.rest| <= |s|
    decreases |s|, 1
  {
    var t := SkipSpace(s);
    if !StartsMul(t) then Parsed(acc, t)
    else
      match ParseFactor(t[1..])
      case Failed(k) => Failed(k)
      case Parsed(v, rest) =>
        match ApplyMul(MulOpOf(t[0]), acc, v)
        case Err(k) => Failed(k)
        case Ok(r) => ParseMulTail(r, rest)
  }

  function ParseTerm(s: seq<Byte>): (p: Parse)
    ensures p.Parsed? ==> |p.rest| < |s|
    decreases |s|, 2
  {
    match ParseFactor(s)
    case Failed(k) => Failed(k)
    case Parsed(v, rest) => ParseMulTail(v, rest)
  }

  predicate StartsAdd(t: seq<Byte>) {
    Starts(t, PLUS) || Starts(t, MINUS)
  }

  function AddOpOf(b: Byte): AddOp {
    if b == PLUS then Plus else Minus
  }

  function ParseAddTail(acc: int, s: seq<Byte>): (p: Parse)
    ensures p.Parsed? ==> |p.rest| <= |s|
    decreases |s|, 3
  {
    var t := SkipSpace(s);
    if !StartsAdd(t) then Parsed(acc, t)
    else
      match ParseTerm(t[1..])
      case Failed(k) => Failed(k)
      case Parsed(v, rest) =>
        match ApplyAdd(AddOpOf(t[0]), acc, v)
        case Err(k) => Failed(k)
        case Ok(r) => ParseAddTail(r, rest)
  }

  function ParseExpr(s: seq<Byte>): (p: Parse)
    ensures p.Parsed? ==> |p.rest| < |s|
    decreases |s|, 4
  {
    match ParseTerm(s)
    case Failed(k) => Failed(k)
    case Parsed(v, rest) => ParseAddTail(v, rest)
  }

  function Calculate(s: seq<Byte>): Result {
    match ParseExpr(s)
    case Failed(k) => Err(k)
    case Parsed(v, rest) => if SkipSpace(rest) == [] then Ok(v) else Err(TrailingInput)
  }

  // ---- White space ----

  lemma {:induction false} SkipOver(w: seq<Byte>, s: seq<Byte>)
    requires AllSpace(w)
    ensures SkipSpace(w + s) == SkipSpace(s)
  {
    if w == [] {
      assert w + s == s;
    } else {
      assert (w + s)[1..] == w[1..] + s;
      SkipOver(w[1..], s);
    }
  }

  lemma {:induction false} SkipSplit(s: seq<Byte>) returns (w: seq<Byte>)
    ensures AllSpace(w) && s == w + SkipSpace(s)
  {
    if s == [] || !IsSpace(s[0]) {
      w := [];
    } else {
      var v := SkipSplit(s[1..]);
      w := [s[0]] + v;
      assert s == [s[0]] + (v + SkipSpace(s));
    }
  }

  lemma HeadTail(s: seq<Byte>)
    requires s != []
    ensures s == [s[0]] + s[1..]
  {
  }

  // ---- Soundness: what is accepted is a rendering ----

  lemma NumberSound(s: seq<Byte>) returns (f: Factor)
    requires ParseNumber(s).Parsed?
    ensures FactorOk(f) && s == ShowFactor(f, ParseNumber(s).rest)
    ensures EvalFactor(f) == Ok(ParseNumber(s).value)
  {
    var w := SkipSplit(s);
    var t := SkipSpace(s);
    var n := LeadingDigits(t);
    f := Number(w, t[..n]);
    assert t == t[..n] + t[n..];
  }

  lemma SpaceJoins(v: seq<Byte>, w: seq<Byte>, k: seq<Byte>)
    ensures v + (w + k) == (v + w) + k
  {
  }

  lemma {:induction false} FactorSound(s: seq<Byte>) returns (f: Factor)
    requires ParseFactor(s).Parsed?
    ensures FactorOk(f) && s == ShowFactor(f, ParseFactor(s).rest)
    ensures EvalFactor(f) == Ok(ParseFactor(s).value)
    decreases |s|, 0
  {
    var t := SkipSpace(s);
    var w := SkipSplit(s);
    if Starts(t, PLUS) {
      HeadTail(t);
      var g := FactorSound(t[1..]);
      f := Positive(w, g);
    } else if Starts(t, MINUS) {
      HeadTail(t);
      var g := FactorSound(t[1..]);
      f := Negative(w, g);
    } else if Starts(t, OPEN) {
      HeadTail(t);
      var e, v := ExprSound(t[1..]);
      var after := ParseExpr(t[1..]).rest;
      var u := SkipSpace(after);
      var v' := SkipSplit(after);
      HeadTail(u);
      f := Paren(w, e, v + v');
      SpaceJoins(v, v', [CLOSE] + u[1..]);
    } else {
      f := NumberSound(s);
    }
  }

  lemma {:induction false} MulTailSound(acc: int, s: seq<Byte>) returns (t: MulTail, w: seq<Byte>)
    requires ParseMulTail(acc, s).Parsed?
    ensures MulTailOk(t) && AllSpace(w) && s == ShowMulTail(t, w + ParseMulTail(acc, s).rest)
    ensures EvalMulTail(acc, t) == Ok(ParseMulTail(acc, s).value)
    decreases |s|, 1
  {
    var u := SkipSpace(s);
    var ws := SkipSplit(s);
    if !StartsMul(u) {
      t, w := MulEnd, ws;
    } else {
      HeadTail(u);
      var f := FactorSound(u[1..]);
      var r := ApplyMul(MulOpOf(u[0]), acc, ParseFactor(u[1..]).value).value;
      var more, v := MulTailSound(r, ParseFactor(u[1..]).rest);
      t, w := MulMore(ws, MulOpOf(u[0]), f, more), v;
    }
  }

  lemma {:induction false} TermSound(s: seq<Byte>) returns (t: Term, w: seq<Byte>)
    requires ParseTerm(s).Parsed?
    ensures TermOk(t) && AllSpace(w) && s == ShowTerm(t, w + ParseTerm(s).rest)
    ensures EvalTerm(t) == Ok(ParseTerm(s).value)
    decreases |s|, 2
  {
    var f := FactorSound(s);
    var rest, v := MulTailSound(ParseFactor(s).value, ParseFactor(s).rest);
    t, w := Term(f, rest), v;
  }

  /** The white space `lead` left over by the preceding term joins that of the next token. */
  lemma {:induction false} AddTailSound(acc: int, lead: seq<Byte>, s: seq<Byte>) returns (t: AddTail, w: seq<Byte>)
    requires AllSpace(lead) && ParseAddTail(acc, s).Parsed?
    ensures AddTailOk(t) && AllSpace(w) && lead + s == ShowAddTail(t, w + ParseAddTail(acc, s).rest)
    ensures EvalAddTail(acc, t) == Ok(ParseAddTail(acc, s).value)
    decreases |s|, 3
  {
    var u := SkipSpace(s);
    var ws := SkipSplit(s);
    assert lead + (ws + u) == (lead + ws) + u;
    if !StartsAdd(u) {
      t, w := AddEnd, lead + ws;
    } else {
      HeadTail(u);
      var m, v := TermSound(u[1..]);
      var r := ApplyAdd(AddOpOf(u[0]), acc, ParseTerm(u[1..]).value).value;
      var more, v' := AddTailSound(r, v, ParseTerm(u[1..]).rest);
      t, w := AddMore(lead + ws, AddOpOf(u[0]), m, more), v';
    }
  }

  lemma {:induction false} ExprSound(s: seq<Byte>) returns (e: Expr, w: seq<Byte>)
    requires ParseExpr(s).Parsed?
    ensures ExprOk(e) && AllSpace(w) && s == ShowExpr(e, w + ParseExpr(s).rest)
    ensures EvalExpr(e) == Ok(ParseExpr(s).value)
    decreases |s|, 4
  {
    var t, v := TermSound(s);
    var rest, v' := AddTailSound(ParseTerm(s).value, v, ParseTerm(s).rest);
    e, w := Expr(t, rest), v';
  }

  // ---- Completeness: every rendering is read back ----

  function Then(r: Result, rest: seq<Byte>): Parse {
    match r
    case Ok(v) => Parsed(v, rest)
    case Err(k) => Failed(k)
  }

  predicate NoDigit(k: seq<Byte>) {
    k == [] || !IsDigit(k[0])
  }

  /** What may follow a term: neither more digits nor a multiplicative operator. */
  predicate EndsTerm(k: seq<Byte>) {
    NoDigit(k) && !StartsMul(SkipSpace(k))
  }

  predicate EndsExpr(k: seq<Byte>) {
    EndsTerm(k) && !StartsAdd(SkipSpace(k))
  }

  /** White space, then a byte that is neither white space nor a digit. */
  lemma SpacedToken(w: seq<Byte>, b: Byte, k: seq<Byte>)
    requires AllSpace(w) && !IsSpace(b)
    ensures SkipSpace(w + ([b] + k)) == [b] + k
    ensures ([b] + k)[0] == b && ([b] + k)[1..] == k
    ensures !IsDigit(b) ==> NoDigit(w + ([b] + k))
  {
    SkipOver(w, [b] + k);
    if w != [] {
      assert (w + ([b] + k))[0] == w[0];
    } else {
      assert w + ([b] + k) == [b] + k;
    }
  }

  lemma {:induction false} DigitsCounted(d: seq<Byte>, k: seq<Byte>)
    requires AllDigits(d) && NoDigit(k)
    ensures LeadingDigits(d + k) == |d|
  {
    if d == [] {
      assert d + k == k;
    } else {
      assert (d + k)[1..] == d[1..] + k;
      DigitsCounted(d[1..], k);
    }
  }

  lemma SpacedDigits(ws: seq<Byte>, d: seq<Byte>, k: seq<Byte>)
    requires AllSpace(ws) && AllDigits(d) && d != []
    ensures SkipSpace(ws + (d + k)) == d + k
    ensures (d + k)[0] == d[0]
  {
    SkipOver(ws, d + k);
  }

  lemma NumberParsed(ws: seq<Byte>, d: seq<Byte>, k: seq<Byte>)
    requires AllSpace(ws) && AllDigits(d) && d != [] && NoDigit(k)
    ensures ParseNumber(ws + (d + k)) == Then(Checked(Decimal(d)), k)
  {
    SpacedDigits(ws, d, k);
    DigitsCounted(d, k);
    assert (d + k)[..|d|] == d && (d + k)[|d|..] == k;
  }

  lemma NumberComplete(f: Factor, k: seq<Byte>)
    requires f.Number? && FactorOk(f) && NoDigit(k)
    ensures ParseFactor(ShowFactor(f, k)) == Then(EvalFactor(f), k)
  {
    NumberParsed(f.ws, f.digits, k);
    SpacedDigits(f.ws, f.digits, k);
    var s, t := ShowFactor(f, k), f.digits + k;
    assert SkipSpace(s) == t && IsDigit(t[0]);
    assert ParseFactor(s) == ParseNumber(s);
  }

  lemma {:induction false} FactorComplete(f: Factor, k: seq<Byte>)
    requires FactorOk(f) && NoDigit(k)
    ensures ParseFactor(ShowFactor(f, k)) == Then(EvalFactor(f), k)
    decreases f
  {
    match f
    case Number(_, _) => NumberComplete(f, k);
    case Positive(ws, g) =>
      SpacedToken(ws, PLUS, ShowFactor(g, k));
      FactorComplete(g, k);
    case Negative(ws, g) =>
      SpacedToken(ws, MINUS, ShowFactor(g, k));
      FactorComplete(g, k);
    case Paren(ws, e, w) =>
      SpacedToken(ws, OPEN, ShowExpr(e, w + ([CLOSE] + k)));
      SpacedToken(w, CLOSE, k);
      ExprComplete(e, w + ([CLOSE] + k));
  }

  lemma MulTailStops(t: MulTail, k: seq<Byte>)
    requires MulTailOk(t) && NoDigit(k)
    ensures NoDigit(ShowMulTail(t, k))
  {
    if t.MulMore? {
      SpacedToken(t.ws, MulSign(t.op), ShowFactor(t.factor, ShowMulTail(t.rest, k)));
    }
  }

  lemma {:induction false} MulTailComplete(acc: int, t: MulTail, k: seq<Byte>)
    requires MulTailOk(t) && EndsTerm(k)
    ensures ParseMulTail(acc, ShowMulTail(t, k)) == Then(EvalMulTail(acc, t), SkipSpace(k))
    decreases t
  {
    if t.MulEnd? {
    } else {
      var after := ShowMulTail(t.rest, k);
      SpacedToken(t.ws, MulSign(t.op), ShowFactor(t.factor, after));
      MulTailStops(t.rest, k);
      FactorComplete(t.factor, after);
      if EvalFactor(t.factor).Ok? {
        var r := ApplyMul(t.op, acc, EvalFactor(t.factor).value);
        if r.Ok? {
          MulTailComplete(r.value, t.rest, k);
        }
      }
    }
  }

  lemma {:induction false} TermComplete(t: Term, k: seq<Byte>)
    requires TermOk(t) && EndsTerm(k)
    ensures ParseTerm(ShowTerm(t, k)) == Then(EvalTerm(t), SkipSpace(k))
    decreases t
  {
    MulTailStops(t.rest, k);
    FactorComplete(t.first, ShowMulTail(t.rest, k));
    if EvalFactor(t.first).Ok? {
      MulTailComplete(EvalFactor(t.first).value, t.rest, k);
    }
  }

  lemma AddTailStops(t: AddTail, k: seq<Byte>)
    requires AddTailOk(t) && EndsExpr(k)
    ensures EndsTerm(ShowAddTail(t, k))
  {
    if t.AddMore? {
      SpacedToken(t.ws, AddSign(t.op), ShowTerm(t.term, ShowAddTail(t.rest, k)));
    }
  }

  lemma AddTailSkips(acc: int, s: seq<Byte>)
    ensures ParseAddTail(acc, SkipSpace(s)) == ParseAddTail(acc, s)
  {
    assert SkipSpace(SkipSpace(s)) == SkipSpace(s);
  }

  lemma {:induction false} AddTailComplete(acc: int, t: AddTail, k: seq<Byte>)
    requires AddTailOk(t) && EndsExpr(k)
    ensures ParseAddTail(acc, ShowAddTail(t, k)) == Then(EvalAddTail(acc, t), SkipSpace(k))
    decreases t
  {
    if t.AddEnd? {
    } else {
      var after := ShowAddTail(t.rest, k);
      SpacedToken(t.ws, AddSign(t.op), ShowTerm(t.term, after));
      AddTailStops(t.rest, k);
      TermComplete(t.term, after);
      if EvalTerm(t.term).Ok? {
        var r := ApplyAdd(t.op, acc, EvalTerm(t.term).value);
        if r.Ok? {
          AddTailSkips(r.value, after);
          AddTailComplete(r.value, t.rest, k);
        }
      }
    }
  }

  lemma {:induction false} ExprComplete(e: Expr, k: seq<Byte>)
    requires ExprOk(e) && EndsExpr(k)
    ensures ParseExpr(ShowExpr(e, k)) == Then(EvalExpr(e), SkipSpace(k))
    decreases e
  {
    var after := ShowAddTail(e.rest, k);
    AddTailStops(e.rest, k);
    TermComplete(e.first, after);
    if EvalTerm(e.first).Ok? {
      AddTailSkips(EvalTerm(e.first).value, after);
      AddTailComplete(EvalTerm(e.first).value, e.rest, k);
    }
  }

  // ---- The calculator ----

  /** `s` is a rendering of `e`, with any white space between tokens and `w` after the last one. */
  predicate Renders(s: seq<Byte>, e: Expr, w: seq<Byte>) {
    ExprOk(e) && AllSpace(w) && s == ShowExpr(e, w)
  }

  /** On every rendering the calculator returns the expression's value, or the error met first from the left. */
  lemma RenderingsAreEvaluated(s: seq<Byte>, e: Expr, w: seq<Byte>)
    requires Renders(s, e, w)
    ensures Calculate(s) == EvalExpr(e)
  {
    SkipOver(w, []);
    assert w + [] == w;
    ExprComplete(e, w);
  }

  /** The calculator answers v exactly on the renderings of the expressions whose value is v. */
  lemma AnswersExactlyRenderings(s: seq<Byte>, v: int)
    ensures Calculate(s) == Ok(v) <==> exists e, w :: Renders(s, e, w) && EvalExpr(e) == Ok(v)
  {
    if Calculate(s) == Ok(v) {
      var e, w := ExprSound(s);
      var u := SkipSplit(ParseExpr(s).rest);
      assert w + (u + []) == w + u;
      assert Renders(s, e, w + u);
    }
    forall e, w | Renders(s, e, w) && EvalExpr(e) == Ok(v)
      ensures Calculate(s) == Ok(v)
    {
      RenderingsAreEvaluated(s, e, w);
    }
  }
}
