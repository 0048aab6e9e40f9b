/**
  The calculator as the shell runs it: a cursor over the bytes of the expression
  and loops that fold operators as they are read.  Each method is proved to do
  what the parsing functions say of the bytes still unread.
*/
module Calculator {
  import opened Wrappers
  import opened CalcGrammar
  import opened CalcParsing

  class CalcParser {
    const bytes: seq<Byte>
    var pos: nat

    ghost predicate Valid()
      reads this
    {
      pos <= |bytes|
    }

    ghost function Unread(): seq<Byte>
      reads this
      requires Valid()
    {
      bytes[pos..]
    }

    /** A method's answer and the cursor it leaves agree with a parse; after an error the cursor does not matter. */
    ghost predicate Agrees(r: Result, p: Parse)
      reads this
    {
      && Valid()
      && match p
         case Parsed(v, rest) => r == Ok(v) && Unread() == rest
         case Failed(k) => r == Err(k)
    }

    constructor (expr: seq<Byte>)
      ensures Valid() && bytes == expr && Unread() == expr
    {
      bytes, pos := expr, 0;
    }

    method SkipWs()
      requires Valid()
      modifies this
      ensures Valid() && pos >= old(pos) && Unread() == SkipSpace(old(Unread()))
    {
      while pos < |bytes| && IsSpace(bytes[pos])
        invariant Valid() && pos >= old(pos) && SkipSpace(Unread()) == SkipSpace(old(Unread()))
      {
        assert Unread()[1..] == bytes[pos + 1..];
        pos := pos + 1;
      }
    }

    method Consume(ch: Byte) returns (found: bool)
      requires Valid()
      modifies this
      ensures Valid() && pos >= old(pos) && (found ==> pos > old(pos))
      ensures var t := SkipSpace(old(Unread()));
              found == Starts(t, ch) && Unread() == if found then t[1..] else t
    {
      SkipWs();
      if pos < |bytes| && bytes[pos] == ch {
        assert Unread()[1..] == bytes[pos + 1..];
        pos := pos + 1;
        found := true;
      } else {
        found := false;
      }
    }

    method ReadNumber() returns (r: Result)
      requires Valid()
      modifies this
      ensures pos >= old(pos) && Agrees(r, ParseNumber(old(Unread())))
    {
      NumberIsDigits(Unread());
      SkipWs();
      r := ReadDigits();
    }

    /** The digit loop, with its check of each multiplication and each addition. */
    method ReadDigits() returns (r: Result)
      requires Valid()
      modifies this
      ensures pos >= old(pos) && Agrees(r, Digits(old(Unread())))
    {
      ghost var t := Unread();
      ghost var total := LeadingDigits(t);
      var start := pos;
      var hasDigit := false;
      var value := 0;
      while pos < |bytes|
        invariant start <= pos && Valid() && pos - start <= total
        invariant hasDigit <==> pos > start
        invariant 0 <= value <= I64_MAX && value == PrefixValue(t, pos - start)
      {
        var b := bytes[pos];
        assert b == t[pos - start];
        if !IsDigit(b) {
          break;
        }
        hasDigit := true;
        var digit := b as int - 48;
        NextDigit(t, pos - start, total);
        if value * 10 > I64_MAX {
          return Err(IntegerOverflow);
        }
        value := value * 10;
        if value + digit > I64_MAX {
          return Err(IntegerOverflow);
        }
        value := value + digit;
        pos := pos + 1;
      }
      assert t[pos - start..] == bytes[pos..];
      if !hasDigit {
        return Err(ExpectedNumber);
      }
      r := Ok(value);
    }

    method ReadFactor() returns (r: Result)
      requires Valid()
      modifies this
      ensures pos >= old(pos) && Agrees(r, ParseFactor(old(Unread())))
      decreases |bytes| - pos, 0
    {
      var plus := Consume(PLUS);
      if plus {
        r := ReadFactor();
        return;
      }
      var minus := Consume(MINUS);
      if minus {
        var v := ReadFactor();
        if v.Err? {
          return v;
        }
        return Checked(-v.value);
      }
      var open := Consume(OPEN);
      if open {
        var v := ReadExpr();
        if v.Err? {
          return v;
        }
        var close := Consume(CLOSE);
        return if close then v else Err(MissingParen);
      }
      r := ReadNumber();
    }

    method ReadTerm() returns (r: Result)
      requires Valid()
      modifies this
      ensures pos >= old(pos) && Agrees(r, ParseTerm(old(Unread())))
      decreases |bytes| - pos, 1
    {
      ghost var before := Unread();
      r := ReadFactor();
      if r.Err? {
        return;
      }
      var value := r.value;
      while true
        invariant Valid() && pos >= old(pos)
        invariant ParseTerm(before) == ParseMulTail(value, Unread())
        invariant |Unread()| < |before|
        decreases |bytes| - pos
      {
        var op := Times;
        var found := Consume(STAR);
        if !found {
          op := Over;
          found := Consume(SLASH);
        }
        if !found {
          op := Mod;
          found := Consume(PERCENT);
        }
        if !found {
          break;
        }
        var rhs := ReadFactor();
        if rhs.Err? {
          return rhs;
        }
        var folded := ApplyMul(op, value, rhs.value);
        if folded.Err? {
          return folded;
        }
        value := folded.value;
      }
      r := Ok(value);
    }

    method ReadExpr() returns (r: Result)
      requires Valid()
      modifies this
      ensures pos >= old(pos) && Agrees(r, ParseExpr(old(Unread())))
      decreases |bytes| - pos, 2
    {
      ghost var before := Unread();
      r := ReadTerm();
      if r.Err? {
        return;
      }
      var value := r.value;
      while true
        invariant Valid() && pos >= old(pos)
        invariant ParseExpr(before) == ParseAddTail(value, Unread())
        decreases |bytes| - pos
      {
        var op := Plus;
        var found := Consume(PLUS);
        if !found {
          op := Minus;
          found := Consume(MINUS);
        }
        if !found {
          break;
        }
        var rhs := ReadTerm();
        if rhs.Err? {
          return rhs;
        }
        var folded := ApplyAdd(op, value, rhs.value);
        if folded.Err? {
          return folded;
        }
        value := folded.value;
      }
      r := Ok(value);
    }
  }

  /** The value of the first `n` bytes of `t` as a decimal numeral. */
  ghost function PrefixValue(t: seq<Byte>, n: nat): nat
    requires n <= |t| && forall k :: 0 <= k < n ==> IsDigit(t[k])
  {
    if n == 0 then 0
    else
      assert IsDigit(t[n - 1]);
      10 * PrefixValue(t, n - 1) + (t[n - 1] as int - 48)
  }

  lemma {:induction false} PrefixIsDecimal(t: seq<Byte>, n: nat)
    requires n <= |t| && forall k :: 0 <= k < n ==> IsDigit(t[k])
    ensures PrefixValue(t, n) == Decimal(t[..n])
  {
    if n == 0 {
    } else {
      PrefixIsDecimal(t, n - 1);
      assert t[..n][..n - 1] == t[..n - 1];
    }
  }

  /** What the digits at the front of `t` come to. */
  ghost function Digits(t: seq<Byte>): Parse {
    var n := LeadingDigits(t);
    if n == 0 then Failed(ExpectedNumber)
    else if PrefixValue(t, n) > I64_MAX then Failed(IntegerOverflow)
    else Parsed(PrefixValue(t, n), t[n..])
  }

  lemma NumberIsDigits(s: seq<Byte>)
    ensures ParseNumber(s) == Digits(SkipSpace(s))
  {
    var t := SkipSpace(s);
    PrefixIsDecimal(t, LeadingDigits(t));
  }

  /** Appending digits never makes a decimal numeral smaller. */
  lemma {:induction false} PrefixGrows(t: seq<Byte>, i: nat, n: nat)
    requires i <= n <= |t| && forall k :: 0 <= k < n ==> IsDigit(t[k])
    ensures PrefixValue(t, i) <= PrefixValue(t, n)
  {
    if i == n {
    } else {
      PrefixGrows(t, i, n - 1);
    }
  }

  lemma NextDigit(t: seq<Byte>, i: nat, n: nat)
    requires i < n <= |t| && forall k :: 0 <= k < n ==> IsDigit(t[k])
    ensures 10 * PrefixValue(t, i) + (t[i] as int - 48) == PrefixValue(t, i + 1) <= PrefixValue(t, n)
  {
    PrefixGrows(t, i + 1, n);
  }

  method EvalCalcExpression(expr: seq<Byte>) returns (r: Result)
    ensures r == Calculate(expr)
  {
    var parser := new CalcParser(expr);
    r := parser.ReadExpr();
    if r.Err? {
      return;
    }
    parser.SkipWs();
    if parser.pos != |parser.bytes| {
      return Err(TrailingInput);
    }
  }
}
