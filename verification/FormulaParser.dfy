/** The parser object of the response decoder: it walks one text with a position, overwrites result and rhs, and
    keeps the first error message. Every method is proved to compute what the functions of Formula compute. */
module FormulaParsing {

  import opened Formula

  class FormulaParser {
    const text: string
    const env: Env
    var error: string
    var position: nat
    var result: real
    var rhs: real

    constructor (expression: string, env: Env, error: string)
      ensures text == expression && this.env == env && this.error == error && position == 0
    {
      this.text, this.env, this.error := expression, env, error;
      position, result, rhs := 0, 0.0, 0.0;
    }

    ghost predicate Valid()
      reads this
    {
      position <= |text|
    }

    /** What is still to be read. */
    ghost function Rest(): string
      reads this
      requires Valid()
    {
      text[position..]
    }

    /** The parse p went as ok says, starting with message first. */
    ghost predicate Reports(p: Parsed, ok: bool, first: string)
      reads this
      requires Valid()
    {
      ok == p.Ok? &&
      (if p.Ok? then Rest() == p.rest && error == first else error == if first == [] then p.message else first)
    }

    /** Keeps the first message only. */
    method FailWith(message: string)
      modifies `error
      ensures error == if old(error) == [] then message else old(error)
    {
      if error == [] {
        error := message;
      }
    }

    method SkipSpaces()
      requires Valid()
      modifies `position
      ensures Valid() && position >= old(position)
      ensures Rest() == Skip(old(Rest()))
    {
      while position < |text| && IsSpace(text[position])
        invariant old(position) <= position <= |text|
        invariant Skip(text[position..]) == Skip(old(Rest()))
      {
        assert text[position..][1..] == text[position + 1..];
        position := position + 1;
      }
      assert position < |text| ==> text[position..][0] == text[position];
    }

    method Match(c: char) returns (found: bool)
      requires Valid()
      modifies `position
      ensures Valid() && position >= old(position)
      ensures found == At(Skip(old(Rest())), c)
      ensures found ==> Rest() == Skip(old(Rest()))[1..] && position > old(position)
      ensures !found ==> Rest() == Skip(old(Rest()))
    {
      SkipSpaces();
      if position < |text| && text[position] == c {
        assert text[position..][1..] == text[position + 1..];
        position := position + 1;
        return true;
      }
      return false;
    }

    method Expression() returns (ok: bool)
      requires Valid()
      modifies `position, `result, `rhs, `error
      ensures Valid() && position >= old(position)
      ensures Reports(PExpression(env, old(Rest())), ok, old(error))
      ensures ok ==> result == PExpression(env, old(Rest())).value
      decreases |text| - position, 4
    {
      hide PTerm, PExpression, PExpressionTail, Skip, At;
      ExpressionStart(env, Rest());
      ok := Term();
      if !ok {
        return;
      }
      var value := rhs;
      while true
        invariant Valid() && position > old(position) && error == old(error)
        invariant PExpression(env, old(Rest())) == PExpressionTail(env, Rest(), value)
        decreases |text| - position
      {
        ghost var s := Rest();
        SumCases(env, s, value);
        SkipSpaces();
        SkipTwice(s);
        var plus := Match('+');
        if plus {
          ok := Term();
          if !ok {
            return;
          }
          value := value + rhs;
        } else {
          var minus := Match('-');
          if minus {
            ok := Term();
            if !ok {
              return;
            }
            value := value - rhs;
          } else {
            result := value;
            return true;
          }
        }
      }
    }

    method Term() returns (ok: bool)
      requires Valid()
      modifies `position, `result, `rhs, `error
      ensures Valid() && position >= old(position)
      ensures Reports(PTerm(env, old(Rest())), ok, old(error))
      ensures ok ==> rhs == PTerm(env, old(Rest())).value && position > old(position)
      decreases |text| - position, 3
    {
      hide PFactor, PTermTail, PTerm, Skip, At, ApplyOp;
      TermStart(env, Rest());
      ok := Factor();
      if !ok {
        return;
      }
      var value := rhs;
      while true
        invariant Valid() && position > old(position) && error == old(error)
        invariant PTerm(env, old(Rest())) == PTermTail(env, Rest(), value)
        decreases |text| - position
      {
        ghost var s := Rest();
        SkipSpaces();
        SkipTwice(s);
        var times := Match('*');
        if times {
          ok, value := Operate(Mul, value, s);
          if !ok {
            return;
          }
        } else {
          var over := Match('/');
          if over {
            ok, value := Operate(Div, value, s);
            if !ok {
              return;
            }
          } else {
            var modulo := Match('%');
            if modulo {
              ok, value := Operate(Mod, value, s);
              if !ok {
                return;
              }
            } else {
              assert NoProduct(s);
              TailStops(env, s, value);
              rhs := value;
              return true;
            }
          }
        }
      }
    }

    /** The factor after an operator that was just read, and the operation. */
    method Operate(op: Op, value: real, ghost s: string) returns (ok: bool, next: real)
      requires Valid() && !Additive(op) && At(Skip(s), Sign(op)) && Rest() == Skip(s)[1..]
      modifies `position, `result, `rhs, `error
      ensures Valid() && position >= old(position)
      ensures ok ==> PTermTail(env, s, value) == PTermTail(env, Rest(), next) && error == old(error)
      ensures !ok ==> Reports(PTermTail(env, s, value), false, old(error))
      decreases |text| - position, 3
    {
      hide PFactor, PTermTail, Skip, At, Fmod;
      next := value;
      ProductAt(env, s, op, value);
      ok := Factor();
      if !ok {
        return;
      }
      if op == Mul {
        next := value * rhs;
      } else if op == Div {
        if rhs == 0.0 {
          FailWith("division by zero");
          return false, next;
        }
        next := value / rhs;
      } else {
        if rhs == 0.0 {
          FailWith("modulo by zero");
          return false, next;
        }
        next := Fmod(value, rhs);
      }
      Products(value, rhs);
      assert ApplyOp(op, value, rhs) == Val(next);
    }

    method Factor() returns (ok: bool)
      requires Valid()
      modifies `position, `result, `rhs, `error
      ensures Valid() && position >= old(position)
      ensures Reports(PFactor(env, old(Rest())), ok, old(error))
      ensures ok ==> rhs == PFactor(env, old(Rest())).value && position > old(position)
      decreases |text| - position, 2
    {
      hide PExpression, PFactor, Skip, At;
      ghost var s := Rest();
      ghost var u := Skip(s);
      FactorCases(env, s);
      SkipTwice(s);
      SkipSpaces();
      var plus := Match('+');
      if plus {
        ok := Factor();
        return;
      }
      var minus := Match('-');
      if minus {
        ok := Factor();
        if ok {
          rhs := -rhs;
        }
        return;
      }
      var open := Match('(');
      if open {
        ok := Expression();
        if !ok {
          return;
        }
        var value := result;
        ghost var e := PExpression(env, u[1..]);
        SkipTwice(e.rest);
        SkipSpaces();
        var close := Match(')');
        if !close {
          FailWith("missing ')'");
          return false;
        }
        rhs := value;
        return true;
      }
      ok := Atom();
    }

    /** The rest of a factor: a number, x or a function. */
    method Atom() returns (ok: bool)
      requires Valid() && Skip(Rest()) == Rest()
      requires !At(Rest(), '+') && !At(Rest(), '-') && !At(Rest(), '(')
      modifies `position, `result, `rhs, `error
      ensures Valid() && position >= old(position)
      ensures Reports(PFactor(env, old(Rest())), ok, old(error))
      ensures ok ==> rhs == PFactor(env, old(Rest())).value && position > old(position)
      decreases |text| - position, 1
    {
      hide PExpression, PCall, Skip, Name;
      ghost var u := Rest();
      var start := position;
      Scan();
      if position > start {
        assert text[start..position] == u[..position - start];
        var n := env.toNumber(text[start..position]);
        if n.NotANumber? {
          FailWith("invalid number");
          return false;
        }
        rhs := n.value;
        return true;
      }
      if position < |text| && Lower(text[position]) == 'x' {
        assert StartsWith(u, "x");
        position := position + 1;
        rhs := env.x;
        return true;
      }
      assert !StartsWith(u, "x");
      var functions := [Abs, Round, Floor, Ceil, Min, Max];
      var i := 0;
      while i < |functions|
        invariant 0 <= i <= |functions| && position == start && error == old(error)
        invariant forall j :: 0 <= j < i ==> !StartsWith(u, Name(functions[j]))
      {
        if StartsWith(text[position..], Name(functions[i])) {
          FirstName(u, functions, i);
          position := position + |Name(functions[i])|;
          assert u[|Name(functions[i])|..] == Rest();
          ok := Call(functions[i]);
          return;
        }
        i := i + 1;
      }
      NoName(u, functions);
      FailWith("expected number, x, or supported function");
      return false;
    }

    /** Moves over a number. */
    method Scan()
      requires Valid()
      modifies `position
      ensures Valid()
      ensures position == old(position) + NumberLength(old(Rest()), false)
      ensures Rest() == old(Rest())[position - old(position)..]
    {
      var exponent := false;
      while position < |text|
        invariant old(position) <= position <= |text|
        invariant position + NumberLength(text[position..], exponent) ==
                  old(position) + NumberLength(old(Rest()), false)
      {
        var character := text[position];
        assert text[position..][1..] == text[position + 1..];
        assert |text| > position + 1 ==> text[position..][2..] == text[position + 2..];
        if IsDigit(character) || character == '.' {
          position := position + 1;
        } else if (character == 'e' || character == 'E') && !exponent {
          exponent := true;
          position := position + 1;
          if position < |text| && (text[position] == '+' || text[position] == '-') {
            position := position + 1;
          }
        } else {
          break;
        }
      }
    }

    /** The arguments of function f, whose name has just been read. */
    method Call(f: Fn) returns (ok: bool)
      requires Valid()
      modifies `position, `result, `rhs, `error
      ensures Valid() && position >= old(position)
      ensures Reports(PCall(env, f, old(Rest())), ok, old(error))
      ensures ok ==> rhs == PCall(env, f, old(Rest())).value && position > old(position)
      decreases |text| - position, 5
    {
      hide PExpression, PSecond, PCall, Skip, Apply1, At;
      ghost var s := Rest();
      CallCases(env, f, s);
      SkipTwice(s);
      SkipSpaces();
      var open := Match('(');
      if !open {
        FailWith("missing '(' after function");
        return false;
      }
      ghost var u := Rest();
      ok := Expression();
      if !ok {
        return;
      }
      var first := result;
      SkipTwice(PExpression(env, u).rest);
      SkipSpaces();
      if OneArgument(f) {
        var close := Match(')');
        if !close {
          FailWith("function expects one argument");
          return false;
        }
        rhs := Apply1(f, first);
        return true;
      }
      ok := Second(f, first);
    }

    /** The comma and second argument of min or max. */
    method Second(f: Fn, first: real) returns (ok: bool)
      requires Valid() && Skip(Rest()) == Rest()
      modifies `position, `result, `rhs, `error
      ensures Valid() && position >= old(position)
      ensures Reports(PSecond(env, f, first, old(Rest())), ok, old(error))
      ensures ok ==> rhs == PSecond(env, f, first, old(Rest())).value && position > old(position)
      decreases |text| - position, 5
    {
      hide PExpression, PSecond, Skip, Apply2, At;
      SecondCases(env, f, first, Rest());
      var comma := Match(',');
      if !comma {
        FailWith("function expects two arguments");
        return false;
      }
      ghost var v := Rest();
      ok := Expression();
      if !ok {
        return;
      }
      var second := result;
      SkipTwice(PExpression(env, v).rest);
      SkipSpaces();
      var close := Match(')');
      if !close {
        FailWith("missing ')'");
        return false;
      }
      rhs := Apply2(f, first, second);
      return true;
    }

    /** Reads the whole text: either its value, or the first error of the reading if there was none before. */
    method Parse() returns (ok: bool, value: real)
      modifies `position, `result, `rhs, `error
      ensures Valid()
      ensures var v := PFormula(env, text);
              ok == v.Val? && (if ok then value == v.value && position == |text| && error == old(error)
                               else error == if old(error) == [] then v.message else old(error))
    {
      value := 0.0;
      position := 0;
      assert text[0..] == text;
      ok := Expression();
      if !ok {
        return;
      }
      ExpressionSkips(env, text);
      SkipSpaces();
      if position != |text| {
        FailWith("unexpected token");
        return false, value;
      }
      return true, result;
    }
  }

  lemma ExpressionStart(env: Env, s: string)
    ensures var t := PTerm(env, s);
            PExpression(env, s) == if t.Fail? then t else PExpressionTail(env, t.rest, t.value)
  {
  }

  lemma SumCases(env: Env, s: string, v: real)
    ensures var u := Skip(s);
            PExpressionTail(env, s, v) ==
              if At(u, '+') then
                var t := PTerm(env, u[1..]);
                if t.Fail? then t else PExpressionTail(env, t.rest, v + t.value)
              else if At(u, '-') then
                var t := PTerm(env, u[1..]);
                if t.Fail? then t else PExpressionTail(env, t.rest, v - t.value)
              else Ok(u, v)
  {
    hide PTerm, Skip;
  }

  lemma FactorCases(env: Env, s: string)
    ensures var u := Skip(s);
            PFactor(env, s) ==
              if At(u, '+') then PFactor(env, u[1..])
              else if At(u, '-') then
                var f := PFactor(env, u[1..]);
                if f.Fail? then f else Ok(f.rest, -f.value)
              else if At(u, '(') then Close(PExpression(env, u[1..]))
              else PFactor(env, u)
  {
    hide PExpression, PCall, Skip, FunctionAt, Name, NumberLength, StartsWith;
    SkipTwice(s);
  }

  lemma CallCases(env: Env, f: Fn, s: string)
    ensures var u := Skip(s);
            PCall(env, f, s) ==
              if !At(u, '(') then Fail("missing '(' after function")
              else
                var a := PExpression(env, u[1..]);
                if a.Fail? then a
                else if !OneArgument(f) then PSecond(env, f, a.value, Skip(a.rest))
                else if At(Skip(a.rest), ')') then Ok(Skip(a.rest)[1..], Apply1(f, a.value))
                else Fail("function expects one argument")
  {
    hide PExpression, PSecond, Skip, Apply1;
  }

  lemma SecondCases(env: Env, f: Fn, first: real, s: string)
    ensures PSecond(env, f, first, s) ==
              if !At(s, ',') then Fail("function expects two arguments")
              else
                var b := PExpression(env, s[1..]);
                Close(if b.Fail? then b else Ok(b.rest, Apply2(f, first, b.value)))
  {
    hide PExpression, Skip, Apply2;
  }

  lemma TermStart(env: Env, s: string)
    ensures var f := PFactor(env, s);
            PTerm(env, s) == if f.Fail? then f else PTermTail(env, f.rest, f.value)
  {
  }

  lemma Products(v: real, w: real)
    ensures ApplyOp(Mul, v, w) == Val(v * w)
    ensures ApplyOp(Div, v, w) == if w == 0.0 then Err("division by zero") else Val(v / w)
    ensures ApplyOp(Mod, v, w) == if w == 0.0 then Err("modulo by zero") else Val(Fmod(v, w))
  {
  }

  lemma SkipTwice(s: string)
    ensures Skip(Skip(s)) == Skip(s)
  {
  }

  lemma {:induction false} SumsSkip(env: Env, s: string, value: real)
    ensures var p := PExpressionTail(env, s, value); p.Ok? ==> Skip(p.rest) == p.rest
    decreases |s|
  {
    hide PTerm, Skip;
    var u := Skip(s);
    SkipTwice(s);
    if At(u, '+') || At(u, '-') {
      var t := PTerm(env, u[1..]);
      if t.Ok? {
        SumsSkip(env, t.rest, if u[0] == '+' then value + t.value else value - t.value);
      }
    }
  }

  lemma ExpressionSkips(env: Env, s: string)
    ensures var p := PExpression(env, s); p.Ok? ==> Skip(p.rest) == p.rest
  {
    hide PTerm, Skip, PExpressionTail;
    var t := PTerm(env, s);
    if t.Ok? {
      SumsSkip(env, t.rest, t.value);
    }
  }

  lemma FirstName(u: string, functions: seq<Fn>, i: nat)
    requires functions == [Abs, Round, Floor, Ceil, Min, Max] && i < |functions|
    requires StartsWith(u, Name(functions[i])) && |Name(functions[i])| <= |u|
    requires forall j :: 0 <= j < i ==> !StartsWith(u, Name(functions[j]))
    ensures FunctionAt(u) == AFn(functions[i]) && |Name(functions[i])| <= |u| && |Name(functions[i])| > 0
  {
    hide StartsWith;
    assert i > 0 ==> !StartsWith(u, Name(functions[0]));
    assert i > 1 ==> !StartsWith(u, Name(functions[1]));
    assert i > 2 ==> !StartsWith(u, Name(functions[2]));
    assert i > 3 ==> !StartsWith(u, Name(functions[3]));
    assert i > 4 ==> !StartsWith(u, Name(functions[4]));
  }

  lemma NoName(u: string, functions: seq<Fn>)
    requires functions == [Abs, Round, Floor, Ceil, Min, Max]
    requires forall j :: 0 <= j < |functions| ==> !StartsWith(u, Name(functions[j]))
    ensures FunctionAt(u).NoFn?
  {
    hide StartsWith;
    assert !StartsWith(u, Name(functions[0])) && !StartsWith(u, Name(functions[1])) &&
        !StartsWith(u, Name(functions[2]));
    assert !StartsWith(u, Name(functions[3])) && !StartsWith(u, Name(functions[4])) &&
        !StartsWith(u, Name(functions[5]));
  }
}
