/** The formulas of the response decoder: expression trees, their texts, and what the recursive-descent
    parser computes from a text. */
module Formula {

  datatype Number = NotANumber | Number(value: real)

  /** The input of a formula, and the library's conversion of a number text. */
  datatype Env = Env(x: real, toNumber: string -> Number)

  datatype Op = Add | Sub | Mul | Div | Mod

  datatype Fn = Abs | Round | Floor | Ceil | Min | Max

  datatype Expr =
    | Num(lexeme: string)
    | X
    | Pos(e: Expr)
    | Neg(e: Expr)
    | Bin(op: Op, l: Expr, r: Expr)
    | Call1(f: Fn, e: Expr)
    | Call2(f: Fn, a: Expr, b: Expr)

  // ---------------------------------------------------------------- arithmetic

  function Trunc(q: real): real {
    if q >= 0.0 then q.Floor as real else -((-q).Floor as real)
  }

  function Fmod(a: real, b: real): real
    requires b != 0.0
  {
    a - b * Trunc(a / b)
  }

  function RoundHalfAway(v: real): real {
    if v >= 0.0 then (v + 0.5).Floor as real else -((-v + 0.5).Floor as real)
  }

  function Apply1(f: Fn, v: real): real {
    match f
    case Abs => if v < 0.0 then -v else v
    case Round => RoundHalfAway(v)
    case Floor => v.Floor as real
    case Ceil => -((-v).Floor as real)
    case _ => v
  }

  function Apply2(f: Fn, a: real, b: real): real {
    if f == Min then (if b < a then b else a) else (if a < b then b else a)
  }

  datatype Value = Val(value: real) | Err(message: string)

  function ApplyOp(op: Op, a: real, b: real): Value {
    match op
    case Add => Val(a + b)
    case Sub => Val(a - b)
    case Mul => Val(a * b)
    case Div => if b == 0.0 then Err("division by zero") else Val(a / b)
    case Mod => if b == 0.0 then Err("modulo by zero") else Val(Fmod(a, b))
  }

  /** The meaning of a formula: exact arithmetic, failing at the first zero divisor. */
  function Eval(env: Env, e: Expr): Value {
    match e
    case Num(lexeme) =>
      var n := env.toNumber(lexeme);
      if n.NotANumber? then Err("invalid number") else Val(n.value)
    case X => Val(env.x)
    case Pos(a) => Eval(env, a)
    case Neg(a) => var v := Eval(env, a); if v.Err? then v else Val(-v.value)
    case Bin(op, l, r) =>
      var v := Eval(env, l);
      if v.Err? then v else
      var w := Eval(env, r);
      if w.Err? then w else ApplyOp(op, v.value, w.value)
    case Call1(f, a) => var v := Eval(env, a); if v.Err? then v else Val(Apply1(f, v.value))
    case Call2(f, a, b) =>
      var v := Eval(env, a);
      if v.Err? then v else
      var w := Eval(env, b);
      if w.Err? then w else Val(Apply2(f, v.value, w.value))
  }

  predicate Integral(r: real) { r == r.Floor as real }

  function Magnitude(r: real): real { if r < 0.0 then -r else r }

  lemma WholeNumbers(k: int)
    ensures Integral(k as real) && Integral(-(k as real))
  {
    assert -(k as real) == (-k) as real;
  }

  /** What the one-argument functions mean: the neighbouring whole numbers, and the nearest one with ties away from
      zero. */
  lemma RoundingMeaning(v: real)
    ensures Apply1(Abs, v) == Magnitude(v) >= 0.0
    ensures var f := Apply1(Floor, v); Integral(f) && f <= v < f + 1.0
    ensures var c := Apply1(Ceil, v); Integral(c) && c - 1.0 < v <= c
    ensures var r := Apply1(Round, v);
            Integral(r) && Magnitude(r - v) <= 0.5 && (Magnitude(r - v) == 0.5 ==> Magnitude(r) > Magnitude(v))
  {
    WholeNumbers(v.Floor);
    WholeNumbers((-v).Floor);
    WholeNumbers((v + 0.5).Floor);
    WholeNumbers((-v + 0.5).Floor);
  }

  lemma ExtremaMeaning(a: real, b: real)
    ensures var m := Apply2(Min, a, b); m <= a && m <= b && (m == a || m == b)
    ensures var m := Apply2(Max, a, b); m >= a && m >= b && (m == a || m == b)
  {
  }

  /** % is the remainder of the quotient truncated towards zero: it is smaller than the divisor and has the sign of
      the dividend. */
  lemma RemainderMeaning(a: real, b: real)
    requires b != 0.0
    ensures var r := Fmod(a, b);
            Magnitude(r) < Magnitude(b) && (a >= 0.0 ==> r >= 0.0) && (a <= 0.0 ==> r <= 0.0) &&
            Integral(Trunc(a / b)) && a == b * Trunc(a / b) + r
  {
    var q := a / b;
    var d := q - Trunc(q);
    TruncNear(q);
    hide Trunc, Integral;
    assert a == b * q;
    assert Fmod(a, b) == b * d by {
      Distribute(b, q, Trunc(q));
    }
    SmallerProduct(b, d);
    SignOfProduct(b, d);
    SignOfProduct(b, q);
  }

  lemma TruncNear(q: real)
    ensures Integral(Trunc(q))
    ensures var d := q - Trunc(q); (q >= 0.0 ==> 0.0 <= d < 1.0) && (q <= 0.0 ==> -1.0 < d <= 0.0)
  {
    WholeNumbers(q.Floor);
    WholeNumbers((-q).Floor);
  }

  lemma Distribute(b: real, x: real, y: real)
    ensures b * x - b * y == b * (x - y)
  {
  }

  lemma PositiveProduct(x: real, y: real)
    requires x > 0.0 && y > 0.0
    ensures x * y > 0.0
  {
  }

  lemma SmallerProduct(b: real, d: real)
    requires b != 0.0 && -1.0 < d < 1.0
    ensures Magnitude(b * d) < Magnitude(b)
  {
    var c := Magnitude(b);
    PositiveProduct(c, 1.0 - d);
    PositiveProduct(c, 1.0 + d);
    var less, more, p := c * (1.0 - d), c * (1.0 + d), b * d;
    assert less > 0.0 && more > 0.0;
    if b > 0.0 {
      assert less == b - p && more == b + p;
    } else {
      assert less == -b + p && more == -b - p;
    }
  }

  lemma SignOfProduct(b: real, d: real)
    ensures (b > 0.0 && d > 0.0) || (b < 0.0 && d < 0.0) ==> b * d > 0.0
    ensures (b > 0.0 && d < 0.0) || (b < 0.0 && d > 0.0) ==> b * d < 0.0
    ensures b == 0.0 || d == 0.0 ==> b * d == 0.0
  {
    if b > 0.0 && d > 0.0 {
      PositiveProduct(b, d);
    } else if b < 0.0 && d < 0.0 {
      PositiveProduct(-b, -d);
      assert -b * -d == b * d;
    } else if b > 0.0 && d < 0.0 {
      PositiveProduct(b, -d);
      assert b * -d == -(b * d);
    } else if b < 0.0 && d > 0.0 {
      PositiveProduct(-b, d);
      assert -b * d == -(b * d);
    }
  }

  // ---------------------------------------------------------------- characters

  /** The characters QChar::isSpace accepts. */
  predicate IsSpace(c: char) {
    c == ' ' || '\t' <= c <= '\r' || c == '\U{0085}' || c == '\U{00A0}' || c == '\U{1680}' ||
    '\U{2000}' <= c <= '\U{200A}' || c == '\U{2028}' || c == '\U{2029}' || c == '\U{202F}' || c == '\U{205F}' ||
    c == '\U{3000}'
  }

  predicate IsDigit(c: char) { '0' <= c <= '9' }

  predicate AllSpaces(s: string) { forall i :: 0 <= i < |s| ==> IsSpace(s[i]) }

  function Skip(s: string): (r: string)
    ensures |r| <= |s|
    ensures r == [] || !IsSpace(r[0])
  {
    if s != [] && IsSpace(s[0]) then Skip(s[1..]) else s
  }

  function Lower(c: char): char {
    if 'A' <= c <= 'Z' then c - 'A' + 'a' else c
  }

  /** s begins with name, in any case. */
  predicate StartsWith(s: string, name: string) {
    |s| >= |name| && forall i :: 0 <= i < |name| ==> Lower(s[i]) == name[i]
  }

  function Name(f: Fn): string {
    match f
    case Abs => "abs"
    case Round => "round"
    case Floor => "floor"
    case Ceil => "ceil"
    case Min => "min"
    case Max => "max"
  }

  predicate OneArgument(f: Fn) { f != Min && f != Max }

  datatype MaybeFn = NoFn | AFn(fn: Fn)

  /** The first function, in the order of the source's list, whose name starts s. */
  function FunctionAt(s: string): MaybeFn {
    if StartsWith(s, "abs") then AFn(Abs)
    else if StartsWith(s, "round") then AFn(Round)
    else if StartsWith(s, "floor") then AFn(Floor)
    else if StartsWith(s, "ceil") then AFn(Ceil)
    else if StartsWith(s, "min") then AFn(Min)
    else if StartsWith(s, "max") then AFn(Max)
    else NoFn
  }

  /** How many characters the number scan takes from s; exponent tells whether it has seen an e. */
  function NumberLength(s: string, exponent: bool): (n: nat)
    ensures n <= |s|
  {
    if s == [] then 0
    else if IsDigit(s[0]) || s[0] == '.' then 1 + NumberLength(s[1..], exponent)
    else if (s[0] == 'e' || s[0] == 'E') && !exponent then
      if |s| > 1 && (s[1] == '+' || s[1] == '-') then 2 + NumberLength(s[2..], true)
      else 1 + NumberLength(s[1..], true)
    else 0
  }

  // ---------------------------------------------------------------- the parser as a function

  datatype Parsed = Ok(rest: string, value: real) | Fail(message: string)

  predicate At(s: string, c: char) { s != [] && s[0] == c }

  function PExpression(env: Env, s: string): (p: Parsed)
    ensures p.Ok? ==> |p.rest| < |s|
    decreases |s|, 4
  {
    var t := PTerm(env, s);
    if t.Fail? then t else PExpressionTail(env, t.rest, t.value)
  }

  function PExpressionTail(env: Env, s: string, value: real): (p: Parsed)
    ensures p.Ok? ==> |p.rest| <= |s|
    decreases |s|, 0
  {
    var u := Skip(s);
    if At(u, '+') || At(u, '-') then
      var t := PTerm(env, u[1..]);
      if t.Fail? then t
      else PExpressionTail(env, t.rest, if u[0] == '+' then value + t.value else value - t.value)
    else Ok(u, value)
  }

  function PTerm(env: Env, s: string): (p: Parsed)
    ensures p.Ok? ==> |p.rest| < |s|
    decreases |s|, 3
  {
    var f := PFactor(env, s);
    if f.Fail? then f else PTermTail(env, f.rest, f.value)
  }

  function PTermTail(env: Env, s: string, value: real): (p: Parsed)
    ensures p.Ok? ==> |p.rest| <= |s|
    decreases |s|, 0
  {
    var u := Skip(s);
    if At(u, '*') || At(u, '/') || At(u, '%') then
      var f := PFactor(env, u[1..]);
      if f.Fail? then f
      else
        var v := ApplyOp(if u[0] == '*' then Mul else if u[0] == '/' then Div else Mod, value, f.value);
        if v.Err? then Fail(v.message) else PTermTail(env, f.rest, v.value)
    else Ok(u, value)
  }

  function PFactor(env: Env, s: string): (p: Parsed)
    ensures p.Ok? ==> |p.rest| < |s|
    decreases |s|, 2
  {
    var u := Skip(s);
    if At(u, '+') then PFactor(env, u[1..])
    else if At(u, '-') then
      var f := PFactor(env, u[1..]);
      if f.Fail? then f else Ok(f.rest, -f.value)
    else if At(u, '(') then
      var e := PExpression(env, u[1..]);
      if e.Fail? then e
      else if At(Skip(e.rest), ')') then Ok(Skip(e.rest)[1..], e.value) else Fail("missing ')'")
    else
      var n := NumberLength(u, false);
      if n > 0 then
        var v := env.toNumber(u[..n]);
        if v.NotANumber? then Fail("invalid number") else Ok(u[n..], v.value)
      else if StartsWith(u, "x") then Ok(u[1..], env.x)
      else
        var f := FunctionAt(u);
        if f.NoFn? then Fail("expected number, x, or supported function") else PCall(env, f.fn, u[|Name(f.fn)|..])
  }

  function PCall(env: Env, f: Fn, s: string): (p: Parsed)
    ensures p.Ok? ==> |p.rest| < |s|
    decreases |s|, 5
  {
    var u := Skip(s);
    if !At(u, '(') then Fail("missing '(' after function")
    else
      var a := PExpression(env, u[1..]);
      if a.Fail? then a
      else
        var w := Skip(a.rest);
        if OneArgument(f) then
          if At(w, ')') then Ok(w[1..], Apply1(f, a.value)) else Fail("function expects one argument")
        else PSecond(env, f, a.value, w)
  }

  function PSecond(env: Env, f: Fn, first: real, s: string): (p: Parsed)
    ensures p.Ok? ==> |p.rest| < |s|
    decreases |s|, 5
  {
    if !At(s, ',') then Fail("function expects two arguments")
    else
      var b := PExpression(env, s[1..]);
      if b.Fail? then b
      else if At(Skip(b.rest), ')') then Ok(Skip(b.rest)[1..], Apply2(f, first, b.value)) else Fail("missing ')'")
  }

  function PFormula(env: Env, text: string): Value {
    var p := PExpression(env, text);
    if p.Fail? then Err(p.message) else if p.rest != [] then Err("unexpected token") else Val(p.value)
  }

  // ---------------------------------------------------------------- texts of formulas

  /** A formula as written: the spaces before each token, the spelling of names, and every parenthesis. */
  datatype Written =
    | WNum(sp: string, lexeme: string)
    | WX(sp: string, letter: char)
    | WSign(sp: string, minus: bool, arg: Written)
    | WGroup(sp: string, inner: Written, close: string)
    | WBin(l: Written, sp: string, op: Op, r: Written)
    | WCall1(sp: string, f: Fn, name: string, open: string, arg: Written, close: string)
    | WCall2(sp: string, f: Fn, name: string, open: string, a: Written, comma: string, b: Written, close: string)

  function Sign(op: Op): char {
    match op case Add => '+' case Sub => '-' case Mul => '*' case Div => '/' case Mod => '%'
  }

  function Text(w: Written): string {
    match w
    case WNum(sp, lexeme) => sp + lexeme
    case WX(sp, letter) => sp + [letter]
    case WSign(sp, minus, arg) => sp + ([if minus then '-' else '+'] + Text(arg))
    case WGroup(sp, inner, close) => sp + ("(" + Text(inner) + (close + ")"))
    case WBin(l, sp, op, r) => Text(l) + (sp + ([Sign(op)] + Text(r)))
    case WCall1(sp, f, name, open, arg, close) => sp + (name + (open + ("(" + Text(arg) + (close + ")"))))
    case WCall2(sp, f, name, open, a, comma, b, close) =>
      sp + (name + (open + ("(" + Text(a) + (comma + ("," + Text(b) + (close + ")"))))))
  }

  /** The tree a written formula stands for. */
  function Tree(w: Written): Expr {
    match w
    case WNum(_, lexeme) => Num(lexeme)
    case WX(_, _) => X
    case WSign(_, minus, arg) => if minus then Neg(Tree(arg)) else Pos(Tree(arg))
    case WGroup(_, inner, _) => Tree(inner)
    case WBin(l, _, op, r) => Bin(op, Tree(l), Tree(r))
    case WCall1(_, f, _, _, arg, _) => Call1(f, Tree(arg))
    case WCall2(_, f, _, _, a, _, b, _) => Call2(f, Tree(a), Tree(b))
  }

  predicate EndsInE(s: string) { s != [] && (s[|s| - 1] == 'e' || s[|s| - 1] == 'E') }

  predicate IsLexeme(s: string) { s != [] && NumberLength(s, false) == |s| && !EndsInE(s) }

  predicate Spells(name: string, f: Fn) { |name| == |Name(f)| && StartsWith(name, Name(f)) }

  predicate Additive(op: Op) { op == Add || op == Sub }

  /** Usual precedence and left associativity. Level 0 admits sums, level 1 products, level 2 neither. */
  predicate Grammatical(w: Written, level: nat) {
    match w
    case WNum(sp, lexeme) => AllSpaces(sp) && IsLexeme(lexeme)
    case WX(sp, letter) => AllSpaces(sp) && Lower(letter) == 'x'
    case WSign(sp, _, arg) => AllSpaces(sp) && Grammatical(arg, 2)
    case WGroup(sp, inner, close) => AllSpaces(sp) && AllSpaces(close) && Grammatical(inner, 0)
    case WBin(l, sp, op, r) =>
      AllSpaces(sp) &&
      if Additive(op) then level == 0 && Grammatical(l, 0) && Grammatical(r, 1)
      else level <= 1 && Grammatical(l, 1) && Grammatical(r, 2)
    case WCall1(sp, f, name, open, arg, close) =>
      AllSpaces(sp) && AllSpaces(open) && AllSpaces(close) && OneArgument(f) && Spells(name, f) && Grammatical(arg, 0)
    case WCall2(sp, f, name, open, a, comma, b, close) =>
      AllSpaces(sp) && AllSpaces(open) && AllSpaces(comma) && AllSpaces(close) && !OneArgument(f) && Spells(name, f) &&
      Grammatical(a, 0) && Grammatical(b, 0)
  }

  // ---------------------------------------------------------------- scanning

  lemma {:induction false} SkipOver(sp: string, t: string)
    requires AllSpaces(sp)
    ensures Skip(sp + t) == Skip(t)
  {
    if sp == [] {
      assert sp + t == t;
    } else {
      assert (sp + t)[1..] == sp[1..] + t;
      SkipOver(sp[1..], t);
    }
  }

  lemma {:induction false} SkippedSpaces(s: string) returns (sp: string)
    ensures AllSpaces(sp) && s == sp + Skip(s)
  {
    hide IsSpace;
    if s != [] && IsSpace(s[0]) {
      var more := SkippedSpaces(s[1..]);
      sp := [s[0]] + more;
      assert s == [s[0]] + s[1..];
      assert sp + Skip(s) == [s[0]] + (more + Skip(s));
    } else {
      sp := [];
    }
  }

  /** What may follow a factor: the end, a space, an operator, a closing parenthesis or a comma. */
  predicate Follows(t: string) {
    t == [] || IsSpace(t[0]) || t[0] == '+' || t[0] == '-' || t[0] == '*' || t[0] == '/' || t[0] == '%' ||
        t[0] == ')' ||
    t[0] == ','
  }

  lemma NotANumberText(t: string, exponent: bool)
    requires Follows(t)
    ensures NumberLength(t, exponent) == 0
  {
    if t != [] {
      var c := t[0];
      assert !IsDigit(c) && c != '.' && c != 'e' && c != 'E';
    }
  }

  lemma {:induction false} ScanStops(s: string, t: string, exponent: bool)
    requires NumberLength(s, exponent) == |s| && !EndsInE(s) && Follows(t)
    ensures NumberLength(s + t, exponent) == |s|
    decreases |s|
  {
    var u := s + t;
    if s == [] {
      assert u == t;
      NotANumberText(t, exponent);
    } else {
      hide IsDigit, Follows;
      var k, more := 1, exponent;
      if !IsDigit(s[0]) && s[0] != '.' {
        assert |s| > 1;
        more := true;
        k := if s[1] == '+' || s[1] == '-' then 2 else 1;
      }
      DropFront(s, t, k);
      ScanStops(s[k..], t, more);
    }
  }

  lemma DropFront(s: string, t: string, k: nat)
    requires k <= |s|
    ensures (s + t)[k..] == s[k..] + t
  {
  }

  lemma SliceTwice(s: string, k: nat, n: nat)
    requires k <= n <= |s|
    ensures s[..n][k..] == s[k..][..n - k]
  {
  }

  lemma {:induction false} ScanPrefix(s: string, exponent: bool)
    ensures var n := NumberLength(s, exponent); NumberLength(s[..n], exponent) == n
    decreases |s|
  {
    hide IsDigit;
    var n := NumberLength(s, exponent);
    if n > 0 {
      var k, more := 1, exponent;
      if !IsDigit(s[0]) && s[0] != '.' {
        more := true;
        k := if |s| > 1 && (s[1] == '+' || s[1] == '-') then 2 else 1;
      }
      ScanPrefix(s[k..], more);
      SliceTwice(s, k, n);
    }
  }

  lemma NameStarts(name: string, f: Fn, t: string)
    requires Spells(name, f)
    ensures FunctionAt(name + t) == AFn(f) && NumberLength(name + t, false) == 0
    ensures name != [] && !IsSpace(name[0]) && name[0] !in "+-(" && Lower(name[0]) != 'x'
  {
    var u := name + t;
    assert forall i :: 0 <= i < |name| ==> Lower(u[i]) == Name(f)[i];
    assert Lower(u[0]) == Name(f)[0] && Lower(u[1]) == Name(f)[1] && Lower(u[2]) == Name(f)[2];
  }

  // ---------------------------------------------------------------- every formula is read as it is meant

  function Read(v: Value, rest: string): Parsed {
    if v.Err? then Fail(v.message) else Ok(rest, v.value)
  }

  lemma Spaced(sp: string, c: char, t: string)
    requires AllSpaces(sp) && !IsSpace(c)
    ensures Skip(sp + ([c] + t)) == [c] + t
  {
    SkipOver(sp, [c] + t);
  }

  predicate NoProduct(t: string) {
    var u := Skip(t);
    !At(u, '*') && !At(u, '/') && !At(u, '%')
  }

  lemma TailStops(env: Env, t: string, v: real)
    requires NoProduct(t)
    ensures PTermTail(env, t, v) == Ok(Skip(t), v)
    ensures Skip(Skip(t)) == Skip(t)
    ensures PExpressionTail(env, Skip(t), v) == PExpressionTail(env, t, v)
  {
    hide PTerm, PFactor;
  }

  lemma FactorSign(env: Env, sp: string, minus: bool, t: string)
    requires AllSpaces(sp)
    ensures var f := PFactor(env, t);
            PFactor(env, sp + ([if minus then '-' else '+'] + t)) ==
              if f.Ok? && minus then Ok(f.rest, -f.value) else f
  {
    hide PExpression, PCall, NumberLength, FunctionAt, StartsWith;
    var c := if minus then '-' else '+';
    Spaced(sp, c, t);
    assert ([c] + t)[1..] == t;
  }

  /** What a closing parenthesis leaves to be read. */
  function Close(p: Parsed): Parsed {
    if p.Fail? then p
    else if At(Skip(p.rest), ')') then Ok(Skip(p.rest)[1..], p.value) else Fail("missing ')'")
  }

  lemma FactorGroup(env: Env, sp: string, t: string)
    requires AllSpaces(sp)
    ensures PFactor(env, sp + ("(" + t)) == Close(PExpression(env, t))
  {
    hide PExpression, PCall, NumberLength, FunctionAt, StartsWith;
    Spaced(sp, '(', t);
    assert ("(" + t)[1..] == t;
  }

  lemma FactorNumber(env: Env, sp: string, lexeme: string, t: string)
    requires AllSpaces(sp) && IsLexeme(lexeme) && Follows(t)
    ensures PFactor(env, sp + (lexeme + t)) == Read(Eval(env, Num(lexeme)), t)
  {
    hide PExpression, PCall, FunctionAt, StartsWith;
    var u := lexeme + t;
    ScanStops(lexeme, t, false);
    assert u[0] == lexeme[0] && !IsSpace(u[0]);
    SkipOver(sp, u);
    assert Skip(u) == u;
    assert u[..|lexeme|] == lexeme && u[|lexeme|..] == t;
  }

  lemma FactorX(env: Env, sp: string, letter: char, t: string)
    requires AllSpaces(sp) && Lower(letter) == 'x'
    ensures PFactor(env, sp + ([letter] + t)) == Ok(t, env.x)
  {
    hide PExpression, PCall, FunctionAt;
    Spaced(sp, letter, t);
    assert ([letter] + t)[1..] == t;
  }

  lemma FactorCall(env: Env, sp: string, f: Fn, name: string, t: string)
    requires AllSpaces(sp) && Spells(name, f)
    ensures PFactor(env, sp + (name + t)) == PCall(env, f, t)
  {
    hide PExpression, PCall, FunctionAt, Name;
    NameStarts(name, f, t);
    var u := name + t;
    assert u[0] == name[0];
    SkipOver(sp, u);
    assert Skip(u) == u;
    assert u[|name|..] == t;
  }

  lemma CallOne(env: Env, f: Fn, open: string, t: string)
    requires AllSpaces(open) && OneArgument(f)
    ensures var a := PExpression(env, t);
            PCall(env, f, open + ("(" + t)) ==
              if a.Fail? then a
              else if At(Skip(a.rest), ')') then Ok(Skip(a.rest)[1..], Apply1(f, a.value))
              else Fail("function expects one argument")
  {
    hide PExpression, Apply1;
    Spaced(open, '(', t);
    assert ("(" + t)[1..] == t;
  }

  lemma CallTwo(env: Env, f: Fn, open: string, t: string)
    requires AllSpaces(open) && !OneArgument(f)
    requires var a := PExpression(env, t); a.Fail? || At(Skip(a.rest), ',')
    ensures var a := PExpression(env, t);
            PCall(env, f, open + ("(" + t)) ==
              if a.Fail? then a
              else
                var b := PExpression(env, Skip(a.rest)[1..]);
                Close(if b.Fail? then b else Ok(b.rest, Apply2(f, a.value, b.value)))
  {
    hide PExpression, Apply2;
    Spaced(open, '(', t);
    assert ("(" + t)[1..] == t;
  }

  lemma ProductStep(env: Env, sp: string, op: Op, t: string, v: real)
    requires AllSpaces(sp) && !Additive(op)
    ensures var f := PFactor(env, t);
            PTermTail(env, sp + ([Sign(op)] + t), v) ==
              if f.Fail? then f
              else
                var w := ApplyOp(op, v, f.value);
                if w.Err? then Fail(w.message) else PTermTail(env, f.rest, w.value)
  {
    hide PFactor;
    Spaced(sp, Sign(op), t);
    assert ([Sign(op)] + t)[1..] == t;
  }

  /** The same step, on a text whose first token is the operator. */
  lemma ProductAt(env: Env, s: string, op: Op, v: real)
    requires !Additive(op) && At(Skip(s), Sign(op))
    ensures var f := PFactor(env, Skip(s)[1..]);
            PTermTail(env, s, v) ==
              if f.Fail? then f
              else
                var w := ApplyOp(op, v, f.value);
                if w.Err? then Fail(w.message) else PTermTail(env, f.rest, w.value)
  {
    hide PFactor;
  }

  lemma SumStep(env: Env, sp: string, op: Op, t: string, v: real)
    requires AllSpaces(sp) && Additive(op)
    ensures var u := PTerm(env, t);
            PExpressionTail(env, sp + ([Sign(op)] + t), v) ==
              if u.Fail? then u else PExpressionTail(env, u.rest, ApplyOp(op, v, u.value).value)
    ensures NoProduct(sp + ([Sign(op)] + t))
  {
    hide PTerm;
    Spaced(sp, Sign(op), t);
    assert ([Sign(op)] + t)[1..] == t;
  }

  lemma FollowsSpace(sp: string, c: char, t: string)
    requires AllSpaces(sp) && Follows([c] + t)
    ensures Follows(sp + ([c] + t))
  {
    if sp != [] {
      assert (sp + ([c] + t))[0] == sp[0];
    }
  }

  lemma {:induction false} GroupRead(env: Env, w: Written, t: string)
    requires w.WGroup? && Grammatical(w, 2)
    ensures PFactor(env, Text(w) + t) == Read(Eval(env, Tree(w)), t)
    decreases w, 0
  {
    hide PFactor, PTerm, PExpression, PCall, Text, Skip, AllSpaces, Eval;
    var WGroup(sp, inner, close) := w;
    var rest := close + (")" + t);
    FactorGroup(env, sp, Text(inner) + rest);
    ArgumentRead(env, inner, close, ')', t);
    GroupText(w, t);
  }

  lemma GroupText(w: Written, t: string)
    requires w.WGroup?
    ensures Text(w) + t == w.sp + ("(" + (Text(w.inner) + (w.close + (")" + t))))
  {
    var end := w.close + ")";
    assert end + t == w.close + (")" + t);
    var mid := "(" + Text(w.inner) + end;
    assert mid + t == "(" + (Text(w.inner) + (end + t));
    assert Text(w) + t == w.sp + (mid + t);
  }

  lemma {:induction false} OneRead(env: Env, w: Written, t: string)
    requires w.WCall1? && Grammatical(w, 2)
    ensures PFactor(env, Text(w) + t) == Read(Eval(env, Tree(w)), t)
    decreases w, 0
  {
    hide PFactor, PTerm, PExpression, PCall, Text, Skip, AllSpaces, Spells, OneArgument, Apply1;
    var WCall1(sp, f, name, open, arg, close) := w;
    var rest := close + (")" + t);
    FactorCall(env, sp, f, name, open + ("(" + (Text(arg) + rest)));
    CallOne(env, f, open, Text(arg) + rest);
    ArgumentRead(env, arg, close, ')', t);
    OneText(w, t);
  }

  lemma OneText(w: Written, t: string)
    requires w.WCall1?
    ensures Text(w) + t == w.sp + (w.name + (w.open + ("(" + (Text(w.arg) + (w.close + (")" + t))))))
  {
    var end := w.close + ")";
    assert end + t == w.close + (")" + t);
    var mid := "(" + Text(w.arg) + end;
    assert mid + t == "(" + (Text(w.arg) + (end + t));
    assert Text(w) + t == w.sp + (w.name + (w.open + (mid + t)));
  }

  lemma {:induction false} TwoRead(env: Env, w: Written, t: string)
    requires w.WCall2? && Grammatical(w, 2)
    ensures PFactor(env, Text(w) + t) == Read(Eval(env, Tree(w)), t)
    decreases w, 0
  {
    hide PFactor, PTerm, PExpression, PCall, Text, Skip, AllSpaces, Spells, OneArgument, Apply2;
    var WCall2(sp, f, name, open, a, comma, b, close) := w;
    var rest := close + (")" + t);
    var more := comma + ("," + (Text(b) + rest));
    FactorCall(env, sp, f, name, open + ("(" + (Text(a) + more)));
    ArgumentRead(env, a, comma, ',', Text(b) + rest);
    CallTwo(env, f, open, Text(a) + more);
    ArgumentRead(env, b, close, ')', t);
    TwoText(w, t);
  }

  lemma TwoText(w: Written, t: string)
    requires w.WCall2?
    ensures var more := w.comma + ("," + (Text(w.b) + (w.close + (")" + t))));
            Text(w) + t == w.sp + (w.name + (w.open + ("(" + (Text(w.a) + more))))
  {
    var end := w.close + ")";
    assert end + t == w.close + (")" + t);
    var last := "," + Text(w.b) + end;
    assert last + t == "," + (Text(w.b) + (end + t));
    var mid := "(" + Text(w.a) + (w.comma + last);
    assert mid + t == "(" + (Text(w.a) + (w.comma + (last + t)));
    assert Text(w) + t == w.sp + (w.name + (w.open + (mid + t)));
  }

  lemma {:induction false} FactorRead(env: Env, w: Written, t: string)
    requires Grammatical(w, 2) && Follows(t)
    ensures PFactor(env, Text(w) + t) == Read(Eval(env, Tree(w)), t)
    decreases w, 1
  {
    hide PFactor, PTerm, PExpression, PCall, Skip, Follows, AllSpaces, IsLexeme, Spells;
    match w
    case WNum(sp, lexeme) =>
      FactorNumber(env, sp, lexeme, t);
      assert Text(w) + t == sp + (lexeme + t);
    case WX(sp, letter) =>
      FactorX(env, sp, letter, t);
      assert Text(w) + t == sp + ([letter] + t);
    case WSign(sp, minus, arg) =>
      FactorSign(env, sp, minus, Text(arg) + t);
      FactorRead(env, arg, t);
      assert Text(w) + t == sp + ([if minus then '-' else '+'] + (Text(arg) + t));
    case WGroup(_, _, _) =>
      GroupRead(env, w, t);
    case WCall1(_, _, _, _, _, _) =>
      OneRead(env, w, t);
    case WCall2(_, _, _, _, _, _, _, _) =>
      TwoRead(env, w, t);
  }

  /** An expression before a parenthesis or comma is read up to it. */
  lemma {:induction false} ArgumentRead(env: Env, w: Written, sp: string, c: char, t: string)
    requires Grammatical(w, 0) && AllSpaces(sp) && (c == ')' || c == ',')
    ensures PExpression(env, Text(w) + (sp + ([c] + t))) == Read(Eval(env, Tree(w)), [c] + t)
    ensures At([c] + t, c) && Skip([c] + t) == [c] + t && ([c] + t)[1..] == t
    decreases w, 4
  {
    hide PFactor, PTerm, PExpression, AllSpaces, Text, Tree;
    var rest := sp + ([c] + t);
    Spaced(sp, c, t);
    FollowsSpace(sp, c, t);
    ExpressionRead(env, w, rest);
    TailStops(env, rest, 0.0);
  }

  lemma {:induction false} TermRead(env: Env, w: Written, t: string)
    requires Grammatical(w, 1) && Follows(t)
    ensures var v := Eval(env, Tree(w));
            PTerm(env, Text(w) + t) == if v.Err? then Fail(v.message) else PTermTail(env, t, v.value)
    decreases w, 2
  {
    hide PFactor, PTermTail, PExpression, AllSpaces, ApplyOp, Text;
    match w
    case WBin(l, sp, op, r) =>
      var more := sp + ([Sign(op)] + (Text(r) + t));
      FollowsSpace(sp, Sign(op), Text(r) + t);
      TermRead(env, l, more);
      FactorRead(env, r, t);
      var v := Eval(env, Tree(l));
      if v.Val? {
        ProductStep(env, sp, op, Text(r) + t, v.value);
      }
      BinText(w, [Sign(op)] + (Text(r) + t), t);
    case _ =>
      FactorRead(env, w, t);
  }

  lemma {:induction false} ExpressionRead(env: Env, w: Written, t: string)
    requires Grammatical(w, 0) && Follows(t) && NoProduct(t)
    ensures var v := Eval(env, Tree(w));
            PExpression(env, Text(w) + t) == if v.Err? then Fail(v.message) else PExpressionTail(env, t, v.value)
    decreases w, 3
  {
    hide PFactor, PTerm, PTermTail, PExpressionTail, AllSpaces, NoProduct;
    if w.WBin? && Additive(w.op) {
      var WBin(l, sp, op, r) := w;
      var more := sp + ([Sign(op)] + (Text(r) + t));
      FollowsSpace(sp, Sign(op), Text(r) + t);
      var v, u := Eval(env, Tree(l)), Eval(env, Tree(r));
      if v.Val? {
        SumStep(env, sp, op, Text(r) + t, v.value);
        TermRead(env, r, t);
        if u.Val? {
          TailStops(env, t, u.value);
          TailStops(env, t, ApplyOp(op, v.value, u.value).value);
        }
      } else {
        SumStep(env, sp, op, Text(r) + t, 0.0);
      }
      ExpressionRead(env, l, more);
      assert Text(w) + t == Text(l) + more;
    } else {
      TermRead(env, w, t);
      var v := Eval(env, Tree(w));
      if v.Val? {
        TailStops(env, t, v.value);
      }
    }
  }

  /** Whatever spaces and spellings a formula is written with, the parser consumes all of it and finds its value. */
  lemma FormulaRead(env: Env, w: Written, sp: string)
    requires Grammatical(w, 0) && AllSpaces(sp)
    ensures PFormula(env, Text(w) + sp) == Eval(env, Tree(w))
  {
    hide PFactor, PTerm, PExpression, Grammatical;
    SkipOver(sp, []);
    assert sp + [] == sp;
    ExpressionRead(env, w, sp);
  }

  // ---------------------------------------------------------------- the characters themselves

  /** A product, as it is typed. */
  lemma ProductTyped(env: Env, l: Written, sp: string, r: Written)
    requires Grammatical(l, 1) && Grammatical(r, 2) && AllSpaces(sp)
    requires Eval(env, Tree(l)).Val? && Eval(env, Tree(r)).Val?
    ensures var v, u := Eval(env, Tree(l)).value, Eval(env, Tree(r)).value;
      PFormula(env, Text(l) + sp + "*" + Text(r)) == Val(v * u)
  {
    assert Sign(Mul) == '*' && !Additive(Mul);
    hide PFormula, Text, Grammatical, Eval, Fmod, Sign, AllSpaces, Tree;
    BinTyped(env, l, sp, Mul, r);
  }

  /** A quotient, as it is typed: it fails on zero. */
  lemma QuotientTyped(env: Env, l: Written, sp: string, r: Written)
    requires Grammatical(l, 1) && Grammatical(r, 2) && AllSpaces(sp)
    requires Eval(env, Tree(l)).Val? && Eval(env, Tree(r)).Val?
    ensures var v, u := Eval(env, Tree(l)).value, Eval(env, Tree(r)).value;
      PFormula(env, Text(l) + sp + "/" + Text(r)) == if u == 0.0 then Err("division by zero") else Val(v / u)
  {
    assert Sign(Div) == '/' && !Additive(Div);
    hide PFormula, Text, Grammatical, Eval, Fmod, Sign, AllSpaces, Tree;
    BinTyped(env, l, sp, Div, r);
  }

  /** A remainder, as it is typed: it fails on zero. */
  lemma RemainderTyped(env: Env, l: Written, sp: string, r: Written)
    requires Grammatical(l, 1) && Grammatical(r, 2) && AllSpaces(sp)
    requires Eval(env, Tree(l)).Val? && Eval(env, Tree(r)).Val?
    ensures var v, u := Eval(env, Tree(l)).value, Eval(env, Tree(r)).value;
      PFormula(env, Text(l) + sp + "%" + Text(r)) == if u == 0.0 then Err("modulo by zero") else Val(Fmod(v, u))
  {
    assert Sign(Mod) == '%' && !Additive(Mod);
    hide PFormula, Text, Grammatical, Eval, Fmod, Sign, AllSpaces, Tree;
    BinTyped(env, l, sp, Mod, r);
  }

  /** A sum, as it is typed: '+' adds and '-' subtracts. */
  lemma SumTyped(env: Env, l: Written, sp: string, r: Written)
    requires Grammatical(l, 0) && Grammatical(r, 1) && AllSpaces(sp)
    requires Eval(env, Tree(l)).Val? && Eval(env, Tree(r)).Val?
    ensures var v, u := Eval(env, Tree(l)).value, Eval(env, Tree(r)).value;
      && PFormula(env, Text(l) + sp + "+" + Text(r)) == Val(v + u)
      && PFormula(env, Text(l) + sp + "-" + Text(r)) == Val(v - u)
  {
    assert Sign(Add) == '+' && Sign(Sub) == '-' && Additive(Add) && Additive(Sub);
    hide PFormula, Text, Grammatical, Eval, Sign, AllSpaces, Tree;
    BinTyped(env, l, sp, Add, r);
    BinTyped(env, l, sp, Sub, r);
  }

  lemma Joined(a: string, b: string, c: string)
    ensures a + (b + c) == a + b + c && c + "" == c
  {
  }

  /** Nothing but the formula: what is typed is its text. */
  lemma Typed(env: Env, w: Written)
    requires Grammatical(w, 0)
    ensures PFormula(env, Text(w)) == Eval(env, Tree(w))
  {
    hide PFormula, Grammatical, Eval, Tree, Text;
    FormulaRead(env, w, "");
    Joined("", "", Text(w));
  }

  lemma BinTyped(env: Env, l: Written, sp: string, op: Op, r: Written)
    requires AllSpaces(sp) && Eval(env, Tree(l)).Val? && Eval(env, Tree(r)).Val?
    requires if Additive(op) then Grammatical(l, 0) && Grammatical(r, 1) else Grammatical(l, 1) && Grammatical(r, 2)
    ensures PFormula(env, Text(l) + sp + [Sign(op)] + Text(r)) ==
      ApplyOp(op, Eval(env, Tree(l)).value, Eval(env, Tree(r)).value)
  {
    var w := WBin(l, sp, op, r);
    BinMeaning(env, l, sp, op, r);
    var a, c, d := Text(l), [Sign(op)], Text(r);
    assert Text(w) == a + (sp + (c + d));
    hide PFormula, ApplyOp, Grammatical, Eval, Tree, Sign, Text;
    Typed(env, w);
    Joined(a, sp, c + d);
    Joined(a + sp, c, d);
  }

  lemma BinMeaning(env: Env, l: Written, sp: string, op: Op, r: Written)
    requires AllSpaces(sp) && Eval(env, Tree(l)).Val? && Eval(env, Tree(r)).Val?
    requires if Additive(op) then Grammatical(l, 0) && Grammatical(r, 1) else Grammatical(l, 1) && Grammatical(r, 2)
    ensures Grammatical(WBin(l, sp, op, r), 0)
    ensures Eval(env, Tree(WBin(l, sp, op, r))) == ApplyOp(op, Eval(env, Tree(l)).value, Eval(env, Tree(r)).value)
  {
    hide ApplyOp;
  }

  /** A sign or a pair of parentheses, as it is typed. */
  lemma SignTyped(env: Env, sp: string, w: Written)
    requires AllSpaces(sp) && Grammatical(w, 2) && Eval(env, Tree(w)).Val?
    ensures PFormula(env, sp + "-" + Text(w)) == Val(-Eval(env, Tree(w)).value)
    ensures PFormula(env, sp + "+" + Text(w)) == Val(Eval(env, Tree(w)).value)
  {
    hide *;
    SignedTyped(env, sp, true, w);
    SignedTyped(env, sp, false, w);
  }

  lemma SignedTyped(env: Env, sp: string, minus: bool, w: Written)
    requires AllSpaces(sp) && Grammatical(w, 2) && Eval(env, Tree(w)).Val?
    ensures var v := Eval(env, Tree(w)).value;
      PFormula(env, sp + [if minus then '-' else '+'] + Text(w)) == Val(if minus then -v else v)
  {
    var s := WSign(sp, minus, w);
    assert Grammatical(s, 0);
    var v := Eval(env, Tree(w)).value;
    assert Eval(env, Tree(s)) == Val(if minus then -v else v);
    var a, d := [if minus then '-' else '+'], Text(w);
    assert Text(s) == sp + (a + d);
    hide PFormula, Grammatical, Eval, Tree, Text;
    Typed(env, s);
    Joined(sp, a, d);
  }

  lemma GroupTyped(env: Env, sp: string, w: Written, close: string)
    requires AllSpaces(sp) && AllSpaces(close) && Grammatical(w, 0)
    ensures PFormula(env, sp + "(" + Text(w) + close + ")") == Eval(env, Tree(w))
  {
    var g := WGroup(sp, w, close);
    assert Grammatical(g, 0) && Eval(env, Tree(g)) == Eval(env, Tree(w));
    var d := Text(w);
    assert Text(g) == sp + ("(" + d + (close + ")"));
    hide PFormula, Grammatical, Eval, Tree, Text;
    Typed(env, g);
    JoinGroup(sp, d, close);
  }

  lemma JoinGroup(head: string, inner: string, close: string)
    ensures head + ("(" + inner + (close + ")")) == head + "(" + inner + close + ")"
  {
    Joined(head, "(" + inner, close + ")");
    Joined(head, "(", inner);
    Joined(head + "(" + inner, close, ")");
  }

  /** The input and a number, as they are typed. */
  lemma AtomTyped(env: Env, sp: string, lexeme: string)
    requires AllSpaces(sp)
    ensures PFormula(env, sp + "x") == Val(env.x) && PFormula(env, sp + "X") == Val(env.x)
    ensures IsLexeme(lexeme) && env.toNumber(lexeme).Number? ==>
              PFormula(env, sp + lexeme) == Val(env.toNumber(lexeme).value)
  {
    Typed(env, WX(sp, 'x'));
    Typed(env, WX(sp, 'X'));
    if IsLexeme(lexeme) {
      Typed(env, WNum(sp, lexeme));
    }
    hide PFormula;
  }

  /** The functions of one argument, as they are typed. */
  lemma CallTyped(env: Env, sp: string, open: string, w: Written, close: string)
    requires AllSpaces(sp) && AllSpaces(open) && AllSpaces(close) && Grammatical(w, 0) && Eval(env, Tree(w)).Val?
    ensures var v := Eval(env, Tree(w)).value;
      && PFormula(env, sp + "abs" + open + "(" + Text(w) + close + ")") == Val(if v < 0.0 then -v else v)
      && PFormula(env, sp + "floor" + open + "(" + Text(w) + close + ")") == Val(v.Floor as real)
      && PFormula(env, sp + "ceil" + open + "(" + Text(w) + close + ")") == Val(Apply1(Ceil, v))
      && PFormula(env, sp + "round" + open + "(" + Text(w) + close + ")") == Val(Apply1(Round, v))
  {
    var v := Eval(env, Tree(w)).value;
    OwnName(Abs);
    OwnName(Floor);
    OwnName(Ceil);
    OwnName(Round);
    assert Name(Abs) == "abs" && Name(Floor) == "floor" && Name(Ceil) == "ceil" && Name(Round) == "round";
    assert OneArgument(Abs) && OneArgument(Floor) && OneArgument(Ceil) && OneArgument(Round);
    assert Apply1(Abs, v) == (if v < 0.0 then -v else v) && Apply1(Floor, v) == v.Floor as real;
    hide *;
    OneTyped(env, sp, Abs, "abs", open, w, close);
    OneTyped(env, sp, Floor, "floor", open, w, close);
    OneTyped(env, sp, Ceil, "ceil", open, w, close);
    OneTyped(env, sp, Round, "round", open, w, close);
  }

  lemma OneTyped(env: Env, sp: string, f: Fn, name: string, open: string, w: Written, close: string)
    requires AllSpaces(sp) && AllSpaces(open) && AllSpaces(close) && Grammatical(w, 0) && Eval(env, Tree(w)).Val?
    requires OneArgument(f) && Spells(name, f)
    ensures PFormula(env, sp + name + open + "(" + Text(w) + close + ")") == Val(Apply1(f, Eval(env, Tree(w)).value))
  {
    var c := WCall1(sp, f, name, open, w, close);
    assert Grammatical(c, 0) && Eval(env, Tree(c)) == Val(Apply1(f, Eval(env, Tree(w)).value));
    var d := Text(w);
    assert Text(c) == sp + (name + (open + ("(" + d + (close + ")"))));
    hide PFormula, Apply1, Grammatical, Eval, Tree, Text, Spells;
    Typed(env, c);
    Joined(sp, name, open + ("(" + d + (close + ")")));
    Joined(sp + name, open, "(" + d + (close + ")"));
    JoinGroup(sp + name + open, d, close);
  }

  /** The functions of two arguments, as they are typed. */
  lemma PairTyped(env: Env, sp: string, open: string, a: Written, comma: string, b: Written, close: string)
    requires AllSpaces(sp) && AllSpaces(open) && AllSpaces(comma) && AllSpaces(close)
    requires Grammatical(a, 0) && Grammatical(b, 0) && Eval(env, Tree(a)).Val? && Eval(env, Tree(b)).Val?
    ensures var u, v := Eval(env, Tree(a)).value, Eval(env, Tree(b)).value;
      && PFormula(env, sp + "min" + open + "(" + Text(a) + comma + "," + Text(b) + close + ")") ==
         Val(if v < u then v else u)
      && PFormula(env, sp + "max" + open + "(" + Text(a) + comma + "," + Text(b) + close + ")") ==
         Val(if u < v then v else u)
  {
    var u, v := Eval(env, Tree(a)).value, Eval(env, Tree(b)).value;
    OwnName(Min);
    OwnName(Max);
    assert Name(Min) == "min" && Name(Max) == "max" && !OneArgument(Min) && !OneArgument(Max);
    assert Apply2(Min, u, v) == (if v < u then v else u) && Apply2(Max, u, v) == (if u < v then v else u);
    hide *;
    TwoTyped(env, sp, Min, "min", open, a, comma, b, close);
    TwoTyped(env, sp, Max, "max", open, a, comma, b, close);
  }

  lemma TwoTyped(env: Env, sp: string, f: Fn, name: string, open: string, a: Written, comma: string, b: Written,
                 close: string)
    requires AllSpaces(sp) && AllSpaces(open) && AllSpaces(comma) && AllSpaces(close)
    requires Grammatical(a, 0) && Grammatical(b, 0) && Eval(env, Tree(a)).Val? && Eval(env, Tree(b)).Val?
    requires !OneArgument(f) && Spells(name, f)
    ensures PFormula(env, sp + name + open + "(" + Text(a) + comma + "," + Text(b) + close + ")") ==
      Val(Apply2(f, Eval(env, Tree(a)).value, Eval(env, Tree(b)).value))
  {
    var c := WCall2(sp, f, name, open, a, comma, b, close);
    assert Grammatical(c, 0);
    assert Eval(env, Tree(c)) == Val(Apply2(f, Eval(env, Tree(a)).value, Eval(env, Tree(b)).value));
    var d, e := Text(a), Text(b);
    assert Text(c) == sp + (name + (open + ("(" + d + (comma + ("," + e + (close + ")"))))));
    hide PFormula, Apply2, Grammatical, Eval, Tree, Text, Spells;
    Typed(env, c);
    var rest := comma + ("," + e + (close + ")"));
    Joined(sp, name, open + ("(" + d + rest));
    Joined(sp + name, open, "(" + d + rest);
    Joined(sp + name + open, "(" + d, rest);
    Joined(sp + name + open, "(", d);
    JoinPair(sp + name + open + "(" + d, comma, e, close);
  }

  lemma JoinPair(head: string, comma: string, b: string, close: string)
    ensures head + (comma + ("," + b + (close + ")"))) == head + comma + "," + b + close + ")"
  {
    Joined(head, comma, "," + b + (close + ")"));
    Joined(head + comma, "," + b, close + ")");
    Joined(head + comma, ",", b);
    Joined(head + comma + "," + b, close, ")");
  }

  /** The formula of a decoding profile: the input divided by four. */
  lemma QuarterOfInput(env: Env)
    requires env.toNumber("4") == Number(4.0)
    ensures PFormula(env, "x / 4") == Val(env.x / 4.0)
  {
    hide *;
    QuarterText();
    QuarterParts(env);
    QuarterTyped(env, WX("", 'x'), " ", WNum(" ", "4"));
  }

  lemma QuarterTyped(env: Env, l: Written, sp: string, r: Written)
    requires Grammatical(l, 1) && Grammatical(r, 2) && AllSpaces(sp)
    requires Eval(env, Tree(l)) == Val(env.x) && Eval(env, Tree(r)) == Val(4.0)
    ensures PFormula(env, Text(l) + sp + "/" + Text(r)) == Val(env.x / 4.0)
  {
    hide *;
    QuotientTyped(env, l, sp, r);
  }

  lemma QuarterText()
    ensures "x" + " " + "/" + " 4" == "x / 4"
  {
  }

  lemma QuarterParts(env: Env)
    requires env.toNumber("4") == Number(4.0)
    ensures var l := WX("", 'x'); Grammatical(l, 1) && Eval(env, Tree(l)) == Val(env.x) && Text(l) == "x"
    ensures var r := WNum(" ", "4"); Grammatical(r, 2) && Eval(env, Tree(r)) == Val(4.0) && Text(r) == " 4"
    ensures AllSpaces(" ")
  {
    LexemeIff("4");
  }

  /** Digits and decimal points. */
  predicate Digits(s: string) { forall i :: 0 <= i < |s| ==> '0' <= s[i] <= '9' || s[i] == '.' }

  /** s is a number token: digits and points, and perhaps one exponent letter with a sign or more digits after it. */
  predicate NumberToken(s: string) {
    s != [] && (Digits(s) || exists k :: 0 <= k < |s| && ExponentAt(s, k))
  }

  predicate ExponentAt(s: string, k: nat)
    requires k < |s|
  {
    && Digits(s[..k]) && (s[k] == 'e' || s[k] == 'E') && k + 1 < |s|
    && (if s[k + 1] == '+' || s[k + 1] == '-' then Digits(s[k + 2..]) else Digits(s[k + 1..]))
  }

  lemma {:induction false} DigitsScan(s: string)
    ensures NumberLength(s, true) == |s| <==> Digits(s)
    decreases |s|
  {
    if s != [] {
      DigitsScan(s[1..]);
      assert Digits(s) <==> ('0' <= s[0] <= '9' || s[0] == '.') && Digits(s[1..]);
    }
  }

  /** The scan takes exactly the number tokens. */
  lemma {:induction false} LexemeIff(s: string)
    ensures IsLexeme(s) <==> NumberToken(s)
    decreases |s|
  {
    ScanIff(s);
    if IsLexeme(s) && !Digits(s) {
      var k :| 0 <= k < |s| && Scanned(s, k);
      assert ExponentAt(s, k);
    }
    if k :| 0 <= k < |s| && ExponentAt(s, k) {
      assert Scanned(s, k);
    }
    if Digits(s) && s != [] {
      assert s[|s| - 1] != 'e' && s[|s| - 1] != 'E';
    }
  }

  /** s is digits, an exponent letter, and whatever digits may follow, perhaps none. */
  predicate Scanned(s: string, k: nat)
    requires k < |s|
  {
    && Digits(s[..k]) && (s[k] == 'e' || s[k] == 'E')
    && (if k + 1 < |s| && (s[k + 1] == '+' || s[k + 1] == '-') then Digits(s[k + 2..]) else Digits(s[k + 1..]))
  }

  lemma {:induction false} ScanIff(s: string)
    ensures NumberLength(s, false) == |s| <==> Digits(s) || exists k :: 0 <= k < |s| && Scanned(s, k)
    decreases |s|
  {
    if s != [] {
      if IsDigit(s[0]) || s[0] == '.' {
        ScanIff(s[1..]);
        LaterExponent(s);
      } else if s[0] == 'e' || s[0] == 'E' {
        DigitsScan(s[1..]);
        if |s| > 1 { DigitsScan(s[2..]); }
        assert NumberLength(s, false) == |s| <==> Scanned(s, 0);
        forall k | 0 < k < |s|
          ensures !Scanned(s, k)
        {
          assert s[..k][0] == s[0];
        }
      } else {
        forall k | 0 <= k < |s|
          ensures !Scanned(s, k)
        {
          if k > 0 { assert s[..k][0] == s[0]; }
        }
      }
    }
  }

  lemma LaterExponent(s: string)
    requires s != [] && (IsDigit(s[0]) || s[0] == '.')
    ensures Digits(s) <==> Digits(s[1..])
    ensures (exists k :: 0 <= k < |s| && Scanned(s, k)) <==> exists k :: 0 <= k < |s[1..]| && Scanned(s[1..], k)
  {
    DigitsFirst(s);
    if k :| 0 <= k < |s| && Scanned(s, k) {
      var m := k - 1;
      LaterAt(s, m);
    }
    if k :| 0 <= k < |s[1..]| && Scanned(s[1..], k) {
      LaterAt(s, k);
    }
  }

  lemma DigitsFirst(s: string)
    requires s != [] && (IsDigit(s[0]) || s[0] == '.')
    ensures Digits(s) <==> Digits(s[1..])
  {
    if Digits(s[1..]) {
      forall i | 0 <= i < |s|
        ensures '0' <= s[i] <= '9' || s[i] == '.'
      {
        if i > 0 { assert s[1..][i - 1] == s[i]; }
      }
    }
  }

  lemma LaterAt(s: string, k: nat)
    requires s != [] && (IsDigit(s[0]) || s[0] == '.') && k + 1 < |s|
    ensures Scanned(s, k + 1) <==> Scanned(s[1..], k)
  {
    var u := s[1..];
    assert s[..k + 1][1..] == u[..k];
    DigitsFirst(s[..k + 1]);
    assert s[k + 2..] == u[k + 1..];
    if k + 2 < |s| { assert s[k + 3..] == u[k + 2..]; }
    hide Digits;
  }

  /** The code points that are skipped as spaces. */
  lemma SpaceMeaning(c: char)
    ensures var n := c as int;
      IsSpace(c) == (9 <= n <= 13 || 0x2000 <= n <= 0x200A ||
                     n in {0x20, 0x85, 0xA0, 0x1680, 0x2028, 0x2029, 0x202F, 0x205F, 0x3000})
  {
  }

  /** Names may be typed in any mixture of upper and lower case. */
  lemma SpellingMeaning(name: string, f: Fn)
    ensures Spells(name, f) <==>
      |name| == |Name(f)| && forall i :: 0 <= i < |name| ==>
        name[i] == Name(f)[i] || (name[i] as int) + 32 == Name(f)[i] as int
  {
    assert forall i :: 0 <= i < |Name(f)| ==> 'a' <= Name(f)[i] <= 'z';
  }

  // ---------------------------------------------------------------- nothing else is accepted

  /** The library converts no text that is empty or ends in the exponent letter. */
  ghost predicate SoundNumbers(env: Env) {
    forall s :: s == [] || EndsInE(s) ==> env.toNumber(s).NotANumber?
  }

  lemma NameOf(u: string)
    requires FunctionAt(u).AFn?
    ensures var f := FunctionAt(u).fn; |u| >= |Name(f)| > 0 && Spells(u[..|Name(f)|], f)
  {
  }

  lemma SignText(w: Written, t: string)
    requires w.WSign?
    ensures Text(w) + t == w.sp + ([if w.minus then '-' else '+'] + (Text(w.arg) + t))
  {
  }

  lemma {:induction false} WrittenFactor(env: Env, s: string) returns (w: Written)
    requires PFactor(env, s).Ok? && SoundNumbers(env)
    ensures var p := PFactor(env, s);
            Grammatical(w, 2) && s == Text(w) + p.rest && Eval(env, Tree(w)) == Val(p.value)
    decreases |s|, 2
  {
    hide PCall, PExpression, Text, FunctionAt, StartsWith, NumberLength, Name, Spells, AllSpaces, Skip;
    var p := PFactor(env, s);
    var sp := SkippedSpaces(s);
    var u := Skip(s);
    if At(u, '+') || At(u, '-') {
      var arg := WrittenFactor(env, u[1..]);
      w := WSign(sp, u[0] == '-', arg);
      Headed(u, u[0]);
      SignText(w, p.rest);
    } else if At(u, '(') {
      var e := PExpression(env, u[1..]);
      var inner, close := WrittenExpression(env, u[1..]);
      var q := SkippedSpaces(e.rest);
      JoinSpaces(close, q);
      w := WGroup(sp, inner, close + q);
      Headed(u, '(');
      Headed(Skip(e.rest), ')');
      assert close + (q + (")" + p.rest)) == (close + q) + (")" + p.rest);
      GroupText(w, p.rest);
    } else {
      w := WrittenAtom(env, s, sp);
    }
  }

  lemma JoinSpaces(a: string, b: string)
    requires AllSpaces(a) && AllSpaces(b)
    ensures AllSpaces(a + b)
  {
  }

  lemma {:induction false} WrittenAtom(env: Env, s: string, sp: string) returns (w: Written)
    requires PFactor(env, s).Ok? && SoundNumbers(env)
    requires AllSpaces(sp) && s == sp + Skip(s)
    requires var u := Skip(s); !At(u, '+') && !At(u, '-') && !At(u, '(')
    ensures var p := PFactor(env, s);
            Grammatical(w, 2) && s == Text(w) + p.rest && Eval(env, Tree(w)) == Val(p.value)
    decreases |s|, 1
  {
    hide PCall, PExpression, FunctionAt, Name, Spells, AllSpaces, Skip, NumberLength;
    var p := PFactor(env, s);
    var u := Skip(s);
    var n := NumberLength(u, false);
    if n > 0 {
      ScanPrefix(u, false);
      w := WNum(sp, u[..n]);
      assert u == u[..n] + u[n..];
      assert Text(w) + p.rest == sp + (u[..n] + p.rest);
    } else if StartsWith(u, "x") {
      w := WX(sp, u[0]);
      assert u == [u[0]] + p.rest;
      assert Text(w) + p.rest == sp + ([u[0]] + p.rest);
    } else {
      NameOf(u);
      var f := FunctionAt(u).fn;
      w := WrittenCall(env, f, sp, u[..|Name(f)|], u[|Name(f)|..]);
      assert u == u[..|Name(f)|] + u[|Name(f)|..];
    }
  }

  lemma {:induction false} WrittenCall(env: Env, f: Fn, sp: string, name: string, s: string) returns (w: Written)
    requires PCall(env, f, s).Ok? && SoundNumbers(env) && AllSpaces(sp) && Spells(name, f)
    ensures var p := PCall(env, f, s);
            Grammatical(w, 2) && sp + (name + s) == Text(w) + p.rest && Eval(env, Tree(w)) == Val(p.value)
    decreases |s|, 6
  {
    hide PExpression, Name, Spells, AllSpaces, Skip, Text, Apply1, Apply2;
    var open := SkippedSpaces(s);
    var u := Skip(s);
    Headed(u, '(');
    var arg, close := WrittenArgument(env, u[1..]);
    var v := Skip(PExpression(env, u[1..]).rest);
    Headed(v, if OneArgument(f) then ')' else ',');
    if OneArgument(f) {
      w := WCall1(sp, f, name, open, arg, close);
      OneWritten(w, s, v[1..]);
    } else {
      var brg, last := WrittenArgument(env, v[1..]);
      var x := Skip(PExpression(env, v[1..]).rest);
      Headed(x, ')');
      w := WCall2(sp, f, name, open, arg, close, brg, last);
      TwoWritten(w, s, v[1..], x[1..]);
    }
  }

  lemma Headed(s: string, c: char)
    requires At(s, c)
    ensures s == [c] + s[1..]
  {
  }

  lemma {:induction false} WrittenArgument(env: Env, s: string) returns (w: Written, sp: string)
    requires PExpression(env, s).Ok? && SoundNumbers(env)
    ensures var p := PExpression(env, s);
            Grammatical(w, 0) && AllSpaces(sp) && s == Text(w) + (sp + Skip(p.rest)) &&
                Eval(env, Tree(w)) == Val(p.value)
    decreases |s|, 5
  {
    hide PExpression, AllSpaces, Skip, Text, Grammatical, Eval;
    var p := PExpression(env, s);
    var c1: string;
    w, c1 := WrittenExpression(env, s);
    var c2 := SkippedSpaces(p.rest);
    JoinSpaces(c1, c2);
    sp := c1 + c2;
    assert c1 + (c2 + Skip(p.rest)) == sp + Skip(p.rest);
  }

  lemma OneWritten(w: Written, s: string, rest: string)
    requires w.WCall1? && s == w.open + ("(" + (Text(w.arg) + (w.close + (")" + rest))))
    ensures w.sp + (w.name + s) == Text(w) + rest
  {
    OneText(w, rest);
  }

  lemma TwoWritten(w: Written, s: string, v: string, rest: string)
    requires w.WCall2? && s == w.open + ("(" + (Text(w.a) + (w.comma + ("," + v))))
    requires v == Text(w.b) + (w.close + (")" + rest))
    ensures w.sp + (w.name + s) == Text(w) + rest
  {
    TwoText(w, rest);
  }

  lemma {:induction false} WrittenTerm(env: Env, s: string) returns (w: Written, sp: string)
    requires PTerm(env, s).Ok? && SoundNumbers(env)
    ensures var p := PTerm(env, s);
            Grammatical(w, 1) && AllSpaces(sp) && s == Text(w) + (sp + p.rest) && Eval(env, Tree(w)) == Val(p.value)
    decreases |s|, 3
  {
    hide PFactor, PTermTail, AllSpaces;
    var f := PFactor(env, s);
    var w0 := WrittenFactor(env, s);
    w, sp := WrittenProducts(env, w0, f.rest, f.value);
  }

  lemma BinText(w: Written, u: string, rest: string)
    requires w.WBin? && u == [Sign(w.op)] + (Text(w.r) + rest)
    ensures Text(w.l) + (w.sp + u) == Text(w) + rest
  {
    var tail := [Sign(w.op)] + Text(w.r);
    assert tail + rest == u;
    assert Text(w) + rest == Text(w.l) + (w.sp + (tail + rest));
  }

  lemma ProductWritten(env: Env, w: Written, v: real, u: real)
    requires w.WBin? && !Additive(w.op) && AllSpaces(w.sp) && Grammatical(w.l, 1) && Grammatical(w.r, 2)
    requires Eval(env, Tree(w.l)) == Val(v) && Eval(env, Tree(w.r)) == Val(u)
    ensures Grammatical(w, 1) && Eval(env, Tree(w)) == ApplyOp(w.op, v, u)
  {
  }

  lemma {:induction false} WrittenProducts(env: Env, w0: Written, s: string, v: real) returns (w: Written, sp: string)
    requires PTermTail(env, s, v).Ok? && SoundNumbers(env)
    requires Grammatical(w0, 1) && Eval(env, Tree(w0)) == Val(v)
    ensures var p := PTermTail(env, s, v);
            Grammatical(w, 1) && AllSpaces(sp) && Text(w0) + s == Text(w) + (sp + p.rest) &&
            Eval(env, Tree(w)) == Val(p.value)
    decreases |s|, 0
  {
    hide PFactor, AllSpaces, Skip, Text, Grammatical, Eval, Tree;
    sp := SkippedSpaces(s);
    var u := Skip(s);
    if At(u, '*') || At(u, '/') || At(u, '%') {
      var op := if u[0] == '*' then Mul else if u[0] == '/' then Div else Mod;
      var f := PFactor(env, u[1..]);
      var r := WrittenFactor(env, u[1..]);
      var w1 := WBin(w0, sp, op, r);
      Headed(u, Sign(op));
      BinText(w1, u, f.rest);
      ProductWritten(env, w1, v, f.value);
      w, sp := WrittenProducts(env, w1, f.rest, ApplyOp(op, v, f.value).value);
    } else {
      w := w0;
    }
  }

  lemma {:induction false} WrittenExpression(env: Env, s: string) returns (w: Written, sp: string)
    requires PExpression(env, s).Ok? && SoundNumbers(env)
    ensures var p := PExpression(env, s);
            Grammatical(w, 0) && AllSpaces(sp) && s == Text(w) + (sp + p.rest) && Eval(env, Tree(w)) == Val(p.value)
    decreases |s|, 4
  {
    hide PTerm, PExpressionTail, AllSpaces;
    var t := PTerm(env, s);
    var w0, sp0 := WrittenTerm(env, s);
    w, sp := WrittenSums(env, w0, sp0, t.rest, t.value);
  }

  lemma SumWritten(env: Env, w: Written, v: real, u: real)
    requires w.WBin? && Additive(w.op) && AllSpaces(w.sp) && Grammatical(w.l, 0) && Grammatical(w.r, 1)
    requires Eval(env, Tree(w.l)) == Val(v) && Eval(env, Tree(w.r)) == Val(u)
    ensures Grammatical(w, 0) && Eval(env, Tree(w)) == ApplyOp(w.op, v, u)
  {
  }

  lemma {:induction false} WrittenSums(env: Env, w0: Written, sp0: string, s: string, v: real)
    returns (w: Written, sp: string)
    requires PExpressionTail(env, s, v).Ok? && SoundNumbers(env)
    requires Grammatical(w0, 0) && AllSpaces(sp0) && Eval(env, Tree(w0)) == Val(v)
    ensures var p := PExpressionTail(env, s, v);
            Grammatical(w, 0) && AllSpaces(sp) && Text(w0) + (sp0 + s) == Text(w) + (sp + p.rest) &&
            Eval(env, Tree(w)) == Val(p.value)
    decreases |s|, 0
  {
    hide PTerm, AllSpaces, Skip, Text, Grammatical, Eval, Tree;
    var q := SkippedSpaces(s);
    JoinSpaces(sp0, q);
    sp := sp0 + q;
    var u := Skip(s);
    assert sp0 + s == sp + u;
    if At(u, '+') || At(u, '-') {
      var op := if u[0] == '+' then Add else Sub;
      var t := PTerm(env, u[1..]);
      var r, sp1 := WrittenTerm(env, u[1..]);
      var w1 := WBin(w0, sp, op, r);
      Headed(u, Sign(op));
      BinText(w1, u, sp1 + t.rest);
      SumWritten(env, w1, v, t.value);
      w, sp := WrittenSums(env, w1, sp1, t.rest, ApplyOp(op, v, t.value).value);
    } else {
      w := w0;
    }
  }

  ghost predicate Writes(w: Written, sp: string, text: string) {
    Grammatical(w, 0) && AllSpaces(sp) && text == Text(w) + sp
  }

  /** A text has a value exactly when it is a grammatical formula with that value: in particular nothing else parses. */
  lemma AcceptedTexts(env: Env, text: string, v: real)
    requires SoundNumbers(env)
    ensures PFormula(env, text) == Val(v) <==> exists w, sp :: Writes(w, sp, text) && Eval(env, Tree(w)) == Val(v)
  {
    hide PExpression, Grammatical;
    if PFormula(env, text) == Val(v) {
      var w, sp := WrittenExpression(env, text);
      assert sp + [] == sp;
      assert Writes(w, sp, text);
    }
    forall w, sp | Writes(w, sp, text) ensures PFormula(env, text) == Eval(env, Tree(w)) {
      FormulaRead(env, w, sp);
    }
  }

  // ---------------------------------------------------------------- every tree can be written

  /** Trees whose numbers are single tokens and whose calls have the right number of arguments. */
  predicate Writable(e: Expr) {
    match e
    case Num(lexeme) => IsLexeme(lexeme)
    case X => true
    case Pos(a) => Writable(a)
    case Neg(a) => Writable(a)
    case Bin(_, l, r) => Writable(l) && Writable(r)
    case Call1(f, a) => OneArgument(f) && Writable(a)
    case Call2(f, a, b) => !OneArgument(f) && Writable(a) && Writable(b)
  }

  /** e with only the parentheses it needs. */
  function Render(e: Expr, level: nat): Written
    decreases e, 1
  {
    match e
    case Bin(op, _, _) => if level > (if Additive(op) then 0 else 1) then WGroup("", Bare(e), "") else Bare(e)
    case _ => Bare(e)
  }

  function Bare(e: Expr): Written
    decreases e, 0
  {
    match e
    case Num(lexeme) => WNum("", lexeme)
    case X => WX("", 'x')
    case Pos(a) => WSign("", false, Render(a, 2))
    case Neg(a) => WSign("", true, Render(a, 2))
    case Bin(op, l, r) =>
      if Additive(op) then WBin(Render(l, 0), "", op, Render(r, 1)) else WBin(Render(l, 1), "", op, Render(r, 2))
    case Call1(f, a) => WCall1("", f, Name(f), "", Render(a, 0), "")
    case Call2(f, a, b) => WCall2("", f, Name(f), "", Render(a, 0), "", Render(b, 0), "")
  }

  lemma OwnName(f: Fn)
    ensures Spells(Name(f), f)
  {
  }

  lemma {:induction false} Rendered(e: Expr, level: nat)
    requires Writable(e) && level <= 2
    ensures Grammatical(Render(e, level), level) && Tree(Render(e, level)) == e
  {
    hide Spells, StartsWith, IsLexeme;
    match e
    case Num(_) =>
    case X =>
    case Pos(a) => Rendered(a, 2);
    case Neg(a) => Rendered(a, 2);
    case Bin(op, l, r) =>
      if Additive(op) {
        Rendered(l, 0);
        Rendered(r, 1);
      } else {
        Rendered(l, 1);
        Rendered(r, 2);
      }
    case Call1(f, a) =>
      OwnName(f);
      Rendered(a, 0);
    case Call2(f, a, b) =>
      OwnName(f);
      Rendered(a, 0);
      Rendered(b, 0);
  }

  /** Writing a tree and reading it back gives the tree's value: the parentheses Render leaves out are not needed. */
  lemma RenderedRead(env: Env, e: Expr)
    requires Writable(e)
    ensures PFormula(env, Text(Render(e, 0))) == Eval(env, e)
  {
    hide PFormula, Render, Grammatical, Text, Eval;
    Rendered(e, 0);
    FormulaRead(env, Render(e, 0), "");
    assert Text(Render(e, 0)) + "" == Text(Render(e, 0));
  }

  /** Every number token converts, so the only failures left are zero divisors. */
  predicate Converts(env: Env, e: Expr) {
    match e
    case Num(lexeme) => env.toNumber(lexeme).Number?
    case X => true
    case Pos(a) => Converts(env, a)
    case Neg(a) => Converts(env, a)
    case Bin(_, l, r) => Converts(env, l) && Converts(env, r)
    case Call1(_, a) => Converts(env, a)
    case Call2(_, a, b) => Converts(env, a) && Converts(env, b)
  }

  /** d is a quotient or remainder inside e. */
  predicate Inside(d: Expr, e: Expr) {
    d == e ||
    match e
    case Num(_) => false
    case X => false
    case Pos(a) => Inside(d, a)
    case Neg(a) => Inside(d, a)
    case Bin(_, l, r) => Inside(d, l) || Inside(d, r)
    case Call1(_, a) => Inside(d, a)
    case Call2(_, a, b) => Inside(d, a) || Inside(d, b)
  }

  predicate ZeroDivision(env: Env, d: Expr) {
    d.Bin? && (d.op == Div || d.op == Mod) && Eval(env, d.l).Val? && Eval(env, d.r) == Val(0.0)
  }

  lemma {:induction false} InsideVal(env: Env, d: Expr, e: Expr)
    requires Inside(d, e) && Eval(env, e).Val?
    ensures Eval(env, d).Val?
  {
    if d != e {
      match e
      case Pos(a) => InsideVal(env, d, a);
      case Neg(a) => InsideVal(env, d, a);
      case Bin(_, l, r) => if Inside(d, l) { InsideVal(env, d, l); } else { InsideVal(env, d, r); }
      case Call1(_, a) => InsideVal(env, d, a);
      case Call2(_, a, b) => if Inside(d, a) { InsideVal(env, d, a); } else { InsideVal(env, d, b); }
    }
  }

  lemma {:induction false} CulpritExists(env: Env, e: Expr) returns (d: Expr)
    requires Converts(env, e) && Eval(env, e).Err?
    ensures Inside(d, e) && ZeroDivision(env, d)
  {
    match e
    case Pos(a) => d := CulpritExists(env, a);
    case Neg(a) => d := CulpritExists(env, a);
    case Bin(_, l, r) =>
      if Eval(env, l).Err? { d := CulpritExists(env, l); }
      else if Eval(env, r).Err? { d := CulpritExists(env, r); }
      else { d := e; }
    case Call1(_, a) => d := CulpritExists(env, a);
    case Call2(_, a, b) => if Eval(env, a).Err? { d := CulpritExists(env, a); } else { d := CulpritExists(env, b); }
  }

  /** A formula with convertible numbers, however it is written, fails exactly when one of its divisors is zero. */
  lemma FailsOnZeroDivisor(env: Env, w: Written, sp: string)
    requires Grammatical(w, 0) && AllSpaces(sp) && Converts(env, Tree(w))
    ensures PFormula(env, Text(w) + sp).Err? <==> exists d :: Inside(d, Tree(w)) && ZeroDivision(env, d)
  {
    FormulaRead(env, w, sp);
    hide PFormula, Text, Inside, Grammatical;
    var e := Tree(w);
    if Eval(env, e).Err? {
      var d := CulpritExists(env, e);
    } else {
      forall d | Inside(d, e) ensures !ZeroDivision(env, d) {
        InsideVal(env, d, e);
      }
    }
  }
}
