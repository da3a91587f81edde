/** The `#if` expression evaluator: a recursive-descent parser that computes as it
    goes, against expression trees printed with as few parentheses as possible. */
module ConstExprs {

  // ---- tokens, values, errors ----

  datatype Tok =
    | Num(n: int)
    | OrOr | AndAnd | Or | Xor | And | Eq | Ne | Lt | Le | Gt | Ge | Shl | Shr | Plus | Minus | Star | Slash | Percent
    | Bang | Tilde | LPar | RPar | Question | Colon
    | Junk(spelling: string)

  datatype Error = Empty | Trailing | UnexpectedEnd | Expected(t: Tok) | BadToken(t: Tok) | DivByZero | ModByZero | NegativeShift

  datatype Value = Val(v: int) | Err(e: Error)

  const LEVELS := 10

  /** Precedence level of a binary operator, from loosest (0) to tightest (9). */
  function Level(t: Tok): (l: int)
    ensures -1 <= l < LEVELS
  {
    match t
    case OrOr => 0
    case AndAnd => 1
    case Or => 2
    case Xor => 3
    case And => 4
    case Eq => 5
    case Ne => 5
    case Lt => 6
    case Le => 6
    case Gt => 6
    case Ge => 6
    case Shl => 7
    case Shr => 7
    case Plus => 8
    case Minus => 8
    case Star => 9
    case Slash => 9
    case Percent => 9
    case _ => -1
  }

  predicate IsPrefix(t: Tok) { t == Plus || t == Minus || t == Bang || t == Tilde }

  // ---- arithmetic on unbounded two's-complement integers ----

  function Abs(a: int): nat { if a < 0 then -a else a }

  /** Division rounding toward minus infinity. */
  function FloorDiv(a: int, b: int): int
    requires b != 0
  {
    if b > 0 then a / b else (-a) / (-b)
  }

  function Quotient(a: int, b: int): int
    requires b != 0
  {
    if (a < 0) != (b < 0) then -FloorDiv(-a, b) else FloorDiv(a, b)
  }

  function Remainder(a: int, b: int): int
    requires b != 0
  {
    a - b * Quotient(a, b)
  }

  function Magnitude(a: int, b: int): int
    requires b != 0
  {
    Abs(a) / Abs(b)
  }

  /** The quotient's magnitude is that of the magnitudes. */
  lemma QuotientIs(a: int, b: int)
    requires b != 0
    ensures Quotient(a, b) == if (a < 0) != (b < 0) then -Magnitude(a, b) else Magnitude(a, b)
  {
  }

  lemma Signs(q: int, b: int)
    ensures b * -q == -(b * q) && -b * q == -(b * q) && -b * -q == b * q
  {
  }

  lemma EuclidMagnitudes(m: int, n: int)
    requires m >= 0 && n > 0
    ensures m == n * (m / n) + m % n && 0 <= m % n < n && m / n >= 0 && (m < n ==> m / n == 0)
  {
    AtLeast(n, m / n);
  }

  lemma AtLeast(n: int, q: int)
    requires n >= 0
    ensures q >= 1 ==> n * q >= n
    ensures q <= -1 ==> n * q <= -n
  {
    if q >= 1 {
      assert n * q == n * (q - 1) + n;
    } else if q <= -1 {
      assert n * q == n * (q + 1) - n;
    }
  }

  /** `/` truncates toward zero and `%` takes the sign of the dividend. */
  lemma DivisionTruncates(a: int, b: int)
    requires b != 0
    ensures a == b * Quotient(a, b) + Remainder(a, b)
    ensures Abs(Quotient(a, b)) == Abs(a) / Abs(b)
    ensures Quotient(a, b) != 0 ==> ((Quotient(a, b) < 0) <==> (a < 0) != (b < 0))
    ensures Abs(Remainder(a, b)) == Abs(a) % Abs(b) && (Remainder(a, b) != 0 ==> (Remainder(a, b) < 0 <==> a < 0))
  {
    QuotientIs(a, b);
    EuclidMagnitudes(Abs(a), Abs(b));
    Signs(Magnitude(a, b), Abs(b));
  }

  function Pow2(n: nat): (r: int)
    ensures r > 0
  {
    if n == 0 then 1 else 2 * Pow2(n - 1)
  }

  /** Bit by bit, `op` given by its values on (0,0), (0,1), (1,0), (1,1). */
  function Bitwise(op: (int, int) -> int, a: int, b: int): int
    decreases Abs(a) + Abs(b)
  {
    if -1 <= a <= 0 && -1 <= b <= 0 then -op(-a, -b)
    else 2 * Bitwise(op, a / 2, b / 2) + op(a % 2, b % 2)
  }

  /** Bit `i` of `n` in two's complement. */
  function Bit(n: int, i: nat): int
    decreases i
  {
    if i == 0 then n % 2 else Bit(n / 2, i - 1)
  }

  lemma {:induction false} SignBits(i: nat)
    ensures Bit(0, i) == 0 && Bit(-1, i) == 1
  {
    if i > 0 {
      SignBits(i - 1);
    }
  }

  /** Every bit of the result is `op` of the operands' bits. */
  lemma {:induction false} BitwiseBit(op: (int, int) -> int, a: int, b: int, i: nat)
    requires forall x, y :: 0 <= x <= 1 && 0 <= y <= 1 ==> 0 <= op(x, y) <= 1
    ensures Bit(Bitwise(op, a, b), i) == op(Bit(a, i), Bit(b, i))
    decreases Abs(a) + Abs(b), i
  {
    if -1 <= a <= 0 && -1 <= b <= 0 {
      SignBits(i);
    } else if i > 0 {
      BitwiseBit(op, a / 2, b / 2, i - 1);
    }
  }

  /** `|`, `^` and `&` work bit by bit, on negative numbers too. */
  lemma OperatorBits(a: int, b: int, i: nat)
    ensures Bit(Apply(Or, a, b).v, i) == 1 <==> Bit(a, i) == 1 || Bit(b, i) == 1
    ensures Bit(Apply(Xor, a, b).v, i) == 1 <==> Bit(a, i) != Bit(b, i)
    ensures Bit(Apply(And, a, b).v, i) == 1 <==> Bit(a, i) == 1 && Bit(b, i) == 1
  {
    BitwiseBit((x, y) => if x == 1 || y == 1 then 1 else 0, a, b, i);
    BitwiseBit((x, y) => if x != y then 1 else 0, a, b, i);
    BitwiseBit((x, y) => if x == 1 && y == 1 then 1 else 0, a, b, i);
  }

  function Bool(c: bool): int { if c then 1 else 0 }

  function Apply(op: Tok, a: int, b: int): Value {
    match op
    case OrOr => Val(Bool(a != 0 || b != 0))
    case AndAnd => Val(Bool(a != 0 && b != 0))
    case Or => Val(Bitwise((x, y) => if x == 1 || y == 1 then 1 else 0, a, b))
    case Xor => Val(Bitwise((x, y) => if x != y then 1 else 0, a, b))
    case And => Val(Bitwise((x, y) => if x == 1 && y == 1 then 1 else 0, a, b))
    case Eq => Val(Bool(a == b))
    case Ne => Val(Bool(a != b))
    case Lt => Val(Bool(a < b))
    case Le => Val(Bool(a <= b))
    case Gt => Val(Bool(a > b))
    case Ge => Val(Bool(a >= b))
    case Shl => if b < 0 then Err(NegativeShift) else Val(a * Pow2(b))
    case Shr => if b < 0 then Err(NegativeShift) else Val(a / Pow2(b))
    case Plus => Val(a + b)
    case Minus => Val(a - b)
    case Star => Val(a * b)
    case Slash => if b == 0 then Err(DivByZero) else Val(Quotient(a, b))
    case Percent => if b == 0 then Err(ModByZero) else Val(Remainder(a, b))
    case _ => Err(BadToken(op))
  }

  function ApplyPrefix(op: Tok, a: int): int {
    match op
    case Minus => -a
    case Bang => Bool(a == 0)
    case Tilde => -a - 1
    case _ => a
  }

  // ---- the parser, as a function of the tokens left ----

  datatype Parsed = Ok(v: int, rest: seq<Tok>) | Fail(e: Error)

  predicate Shorter(r: Parsed, ts: seq<Tok>) { r.Ok? ==> |r.rest| < |ts| }

  function Eat(ts: seq<Tok>, t: Tok): Parsed {
    if ts == [] then Fail(UnexpectedEnd) else if ts[0] != t then Fail(Expected(t)) else Ok(0, ts[1..])
  }

  function Ternary(ts: seq<Tok>): (r: Parsed)
    ensures Shorter(r, ts)
    decreases |ts|, LEVELS + 3
  {
    var c := Binary(ts, 0);
    if c.Fail? || c.rest == [] || c.rest[0] != Question then c
    else
      var a := Ternary(c.rest[1..]);
      if a.Fail? then a
      else
        var colon := Eat(a.rest, Colon);
        if colon.Fail? then colon
        else
          var b := Ternary(colon.rest);
          if b.Fail? then b else Ok(if c.v != 0 then a.v else b.v, b.rest)
  }

  function Binary(ts: seq<Tok>, level: nat): (r: Parsed)
    requires level <= LEVELS
    ensures Shorter(r, ts)
    decreases |ts|, LEVELS + 2 - level
  {
    if level == LEVELS then Unary(ts)
    else
      var left := Binary(ts, level + 1);
      if left.Fail? then left else Operators(left.rest, level, left.v)
  }

  /** The loop over operators of one level, with the value so far. */
  function Operators(ts: seq<Tok>, level: nat, left: int): (r: Parsed)
    requires level < LEVELS
    ensures r.Ok? ==> |r.rest| <= |ts|
    decreases |ts|, LEVELS + 3
  {
    if ts == [] || Level(ts[0]) != level then Ok(left, ts)
    else
      var right := Binary(ts[1..], level + 1);
      if right.Fail? then right
      else
        match Apply(ts[0], left, right.v)
        case Err(e) => Fail(e)
        case Val(v) => Operators(right.rest, level, v)
  }

  function Unary(ts: seq<Tok>): (r: Parsed)
    ensures Shorter(r, ts)
    decreases |ts|, 1
  {
    if ts != [] && IsPrefix(ts[0]) then
      var r := Unary(ts[1..]);
      if r.Fail? then r else Ok(ApplyPrefix(ts[0], r.v), r.rest)
    else Primary(ts)
  }

  function Primary(ts: seq<Tok>): (r: Parsed)
    ensures Shorter(r, ts)
    decreases |ts|, 0
  {
    if ts == [] then Fail(UnexpectedEnd)
    else if ts[0] == LPar then
      var r := Ternary(ts[1..]);
      if r.Fail? then r
      else
        var close := Eat(r.rest, RPar);
        if close.Fail? then close else Ok(r.v, close.rest)
    else if ts[0].Num? then Ok(ts[0].n, ts[1..])
    else Fail(BadToken(ts[0]))
  }

  function Parse(ts: seq<Tok>): Value {
    if ts == [] then Err(Empty)
    else
      match Ternary(ts)
      case Fail(e) => Err(e)
      case Ok(v, rest) => if rest == [] then Val(v) else Err(Trailing)
  }

  // ---- the parser the source has: a cursor moving over the tokens ----

  datatype Outcome = Got(v: int) | Raised(e: Error)

  ghost predicate Agrees(o: Outcome, cursor: nat, toks: seq<Tok>, r: Parsed) {
    match r
    case Fail(e) => o == Raised(e)
    case Ok(v, rest) => o == Got(v) && cursor <= |toks| && toks[cursor..] == rest
  }

  class ConstExpr {
    const toks: seq<Tok>
    var i: nat

    constructor (spells: seq<Tok>)
      ensures toks == spells && i == 0
    {
      toks, i := spells, 0;
    }

    method EatTok(t: Tok) returns (o: Outcome)
      requires i <= |toks|
      modifies this`i
      ensures Agrees(o, i, toks, Eat(toks[old(i)..], t))
    {
      if i == |toks| {
        return Raised(UnexpectedEnd);
      }
      if toks[i] != t {
        return Raised(Expected(t));
      }
      i := i + 1;
      return Got(0);
    }

    method TernaryAt() returns (o: Outcome)
      requires i <= |toks|
      modifies this`i
      ensures Agrees(o, i, toks, Ternary(toks[old(i)..]))
      decreases |toks| - i, LEVELS + 3
    {
      var c := BinaryAt(0);
      if c.Raised? || i == |toks| || toks[i] != Question {
        return c;
      }
      i := i + 1;
      var a := TernaryAt();
      if a.Raised? {
        return a;
      }
      var colon := EatTok(Colon);
      if colon.Raised? {
        return colon;
      }
      var b := TernaryAt();
      if b.Raised? {
        return b;
      }
      return Got(if c.v != 0 then a.v else b.v);
    }

    method BinaryAt(level: nat) returns (o: Outcome)
      requires i <= |toks| && level <= LEVELS
      modifies this`i
      ensures Agrees(o, i, toks, Binary(toks[old(i)..], level))
      decreases |toks| - i, LEVELS + 2 - level
    {
      if level == LEVELS {
        o := UnaryAt();
        return;
      }
      o := BinaryAt(level + 1);
      if o.Raised? {
        return;
      }
      while i < |toks| && Level(toks[i]) == level
        invariant old(i) < i <= |toks| && o.Got?
        invariant Binary(toks[old(i)..], level) == Operators(toks[i..], level, o.v)
        decreases |toks| - i
      {
        var op := toks[i];
        i := i + 1;
        var right := BinaryAt(level + 1);
        if right.Raised? {
          return right;
        }
        match Apply(op, o.v, right.v) {
          case Err(e) => return Raised(e);
          case Val(v) => o := Got(v);
        }
      }
    }

    method UnaryAt() returns (o: Outcome)
      requires i <= |toks|
      modifies this`i
      ensures Agrees(o, i, toks, Unary(toks[old(i)..]))
      decreases |toks| - i, 1
    {
      if i < |toks| && IsPrefix(toks[i]) {
        var op := toks[i];
        i := i + 1;
        o := UnaryAt();
        if o.Got? {
          o := Got(ApplyPrefix(op, o.v));
        }
      } else {
        o := PrimaryAt();
      }
    }

    method PrimaryAt() returns (o: Outcome)
      requires i <= |toks|
      modifies this`i
      ensures Agrees(o, i, toks, Primary(toks[old(i)..]))
      decreases |toks| - i, 0
    {
      if i == |toks| {
        return Raised(UnexpectedEnd);
      }
      var t := toks[i];
      i := i + 1;
      if t == LPar {
        o := TernaryAt();
        if o.Raised? {
          return;
        }
        var close := EatTok(RPar);
        if close.Raised? {
          return close;
        }
      } else if t.Num? {
        o := Got(t.n);
      } else {
        o := Raised(BadToken(t));
      }
    }

    /** Parse and evaluate the whole token list. */
    method ParseAll() returns (v: Value)
      requires i == 0
      modifies this`i
      ensures v == Parse(toks)
    {
      if toks == [] {
        return Err(Empty);
      }
      assert toks[0..] == toks;
      var o := TernaryAt();
      if o.Raised? {
        return Err(o.e);
      }
      return if i == |toks| then Val(o.v) else Err(Trailing);
    }
  }

  // ---- expression trees ----

  datatype Expr =
    | Lit(n: int)
    | Prefix(op: Tok, x: Expr)
    | Infix(op: Tok, l: Expr, r: Expr)
    | Cond(c: Expr, a: Expr, b: Expr)

  predicate WellFormed(e: Expr) {
    match e
    case Lit(_) => true
    case Prefix(op, x) => IsPrefix(op) && WellFormed(x)
    case Infix(op, l, r) => Level(op) >= 0 && WellFormed(l) && WellFormed(r)
    case Cond(c, a, b) => WellFormed(c) && WellFormed(a) && WellFormed(b)
  }

  /** How tightly a tree binds: the ternary loosest, a literal tightest. */
  function Prec(e: Expr): int {
    match e
    case Lit(_) => LEVELS + 1
    case Prefix(_, _) => LEVELS
    case Infix(op, _, _) => Level(op)
    case Cond(_, _, _) => -1
  }

  function Body(e: Expr): seq<Tok>
    decreases e, 0
  {
    match e
    case Lit(n) => [Num(n)]
    case Prefix(op, x) => [op] + Print(x, LEVELS)
    case Infix(op, l, r) => Print(l, Level(op)) + ([op] + Print(r, Level(op) + 1))
    case Cond(c, a, b) => Print(c, 0) + ([Question] + (Print(a, -1) + ([Colon] + Print(b, -1))))
  }

  /** Print `e` where something binding as tightly as `min` is wanted: parentheses
      only around a tree that binds more loosely. */
  function Print(e: Expr, min: int): seq<Tok>
    decreases e, 1
  {
    if Prec(e) < min then [LPar] + (Body(e) + [RPar]) else Body(e)
  }

  /** The tree's value; every operand is evaluated, left to right, and the first
      division by zero or negative shift met is the result. */
  function Eval(e: Expr): Value {
    match e
    case Lit(n) => Val(n)
    case Prefix(op, x) => (match Eval(x) case Err(er) => Err(er) case Val(v) => Val(ApplyPrefix(op, v)))
    case Infix(op, l, r) => Both(op, Eval(l), Eval(r))
    case Cond(c, a, b) => Choose(Eval(c), Eval(a), Eval(b))
  }

  function Both(op: Tok, l: Value, r: Value): Value {
    if l.Err? then l else if r.Err? then r else Apply(op, l.v, r.v)
  }

  function Choose(c: Value, a: Value, b: Value): Value {
    if c.Err? then c else if a.Err? then a else if b.Err? then b else Val(if c.v != 0 then a.v else b.v)
  }

  // ---- parsing what was printed ----

  /** `post` does not go on with an operator of this level or a tighter one. */
  predicate Stops(post: seq<Tok>, level: int) {
    post == [] || Level(post[0]) < level
  }

  predicate StopsTernary(post: seq<Tok>) {
    Stops(post, 0) && (post == [] || post[0] != Question)
  }

  /** What parsing at `level` does once the value of the printed tree is known. */
  function Then(v: Value, level: nat, post: seq<Tok>): Parsed
    requires level <= LEVELS
  {
    if v.Err? then Fail(v.e) else if level == LEVELS then Ok(v.v, post) else Operators(post, level, v.v)
  }

  function Done(v: Value, post: seq<Tok>): Parsed {
    if v.Err? then Fail(v.e) else Ok(v.v, post)
  }

  /** Nothing at the next level continues, so this level's loop starts. */
  lemma Climb(ts: seq<Tok>, v: Value, level: nat, post: seq<Tok>)
    requires level < LEVELS && Stops(post, level + 1) && Binary(ts, level + 1) == Then(v, level + 1, post)
    ensures Binary(ts, level) == Then(v, level, post)
  {
  }

  function Phase(e: Expr, level: nat): nat
    requires level <= LEVELS
  {
    if level > Prec(e) then 3 * LEVELS - level else LEVELS - level
  }

  /** A tree printed for `level` and followed by anything that does not bind more
      tightly is read back as that tree's value. */
  lemma {:induction false} ReadBack(e: Expr, level: nat, post: seq<Tok>)
    requires WellFormed(e) && level <= LEVELS && Stops(post, level + 1)
    ensures Binary(Print(e, level) + post, level) == Then(Eval(e), level, post)
    decreases e, Phase(e, level)
  {
    if Prec(e) != level && level < LEVELS {
      assert Print(e, level) == Print(e, level + 1);
      ReadBack(e, level + 1, post);
      Climb(Print(e, level) + post, Eval(e), level, post);
    } else if Prec(e) < level {
      ReadParenthesized(e, post);
    } else if e.Infix? {
      ReadInfix(e, post);
    } else if e.Prefix? {
      ReadBack(e.x, LEVELS, post);
      ReadPrefix(e.op, Print(e.x, LEVELS), post);
      assert Print(e, LEVELS) == [e.op] + Print(e.x, LEVELS);
    } else {
      var ts := [Num(e.n)] + post;
      assert ts[1..] == post && Unary(ts) == Primary(ts);
    }
  }

  lemma ReadPrefix(op: Tok, operand: seq<Tok>, post: seq<Tok>)
    requires IsPrefix(op)
    ensures Binary(([op] + operand) + post, LEVELS)
            == (var r := Binary(operand + post, LEVELS); if r.Fail? then r else Ok(ApplyPrefix(op, r.v), r.rest))
  {
    var ts := ([op] + operand) + post;
    assert ts[1..] == operand + post;
  }

  lemma ReadGroup(inner: seq<Tok>, post: seq<Tok>, v: Value)
    requires Ternary(inner + ([RPar] + post)) == Done(v, [RPar] + post)
    ensures Binary(([LPar] + (inner + [RPar])) + post, LEVELS) == Done(v, post)
  {
    var ts := ([LPar] + (inner + [RPar])) + post;
    assert ts[1..] == inner + ([RPar] + post);
    assert ([RPar] + post)[1..] == post;
    assert Unary(ts) == Primary(ts);
  }

  lemma {:induction false} ReadParenthesized(e: Expr, post: seq<Tok>)
    requires WellFormed(e) && Prec(e) < LEVELS
    ensures Binary(([LPar] + (Body(e) + [RPar])) + post, LEVELS) == Then(Eval(e), LEVELS, post)
    decreases e, 2 * LEVELS - 1
  {
    ReadTernary(e, [RPar] + post);
    ReadGroup(Body(e), post, Eval(e));
  }

  lemma {:induction false} ReadInfix(e: Expr, post: seq<Tok>)
    requires WellFormed(e) && e.Infix? && Stops(post, Level(e.op) + 1)
    ensures Binary(Body(e) + post, Level(e.op)) == Then(Eval(e), Level(e.op), post)
    decreases e, 0
  {
    var level := Level(e.op);
    var right := Print(e.r, level + 1) + post;
    assert Body(e) + post == Print(e.l, level) + ([e.op] + right);
    ReadBack(e.l, level, [e.op] + right);
    if Eval(e.l).Val? {
      ReadBack(e.r, level + 1, post);
      OperatorStep(e.op, level, Eval(e.l).v, right);
    }
  }

  /** What the operator loop does with a right operand. */
  function AfterRight(op: Tok, level: nat, left: int, r: Parsed): Parsed
    requires level < LEVELS
  {
    if r.Fail? then r
    else
      match Apply(op, left, r.v)
      case Err(e) => Fail(e)
      case Val(v) => Operators(r.rest, level, v)
  }

  lemma OperatorStep(op: Tok, level: nat, left: int, right: seq<Tok>)
    requires Level(op) == level < LEVELS
    ensures Operators([op] + right, level, left) == AfterRight(op, level, left, Binary(right, level + 1))
  {
    assert ([op] + right)[1..] == right;
  }

  lemma {:induction false} ReadTernary(e: Expr, post: seq<Tok>)
    requires WellFormed(e) && StopsTernary(post)
    ensures Ternary(Body(e) + post) == Done(Eval(e), post)
    decreases e, 2 * LEVELS - 2
  {
    if e.Cond? {
      ReadCond(e, post);
    } else {
      assert Print(e, 0) == Body(e);
      ReadBack(e, 0, post);
    }
  }

  lemma {:induction false} ReadCond(e: Expr, post: seq<Tok>)
    requires WellFormed(e) && e.Cond? && StopsTernary(post)
    ensures Ternary(Body(e) + post) == Done(Eval(e), post)
    decreases e, 0
  {
    var rest := Print(e.b, -1) + post;
    var middle := Print(e.a, -1) + ([Colon] + rest);
    assert Body(e) + post == Print(e.c, 0) + ([Question] + middle);
    ReadBack(e.c, 0, [Question] + middle);
    ReadTernary(e.a, [Colon] + rest);
    ReadTernary(e.b, post);
    ReadChoice(Print(e.c, 0), middle, Eval(e.c), rest, Eval(e.a), Eval(e.b), post);
  }

  lemma ReadChoice(cond: seq<Tok>, middle: seq<Tok>, c: Value, rest: seq<Tok>, a: Value, b: Value, post: seq<Tok>)
    requires Binary(cond + ([Question] + middle), 0) == Then(c, 0, [Question] + middle)
    requires Ternary(middle) == Done(a, [Colon] + rest) && Ternary(rest) == Done(b, post)
    ensures Ternary(cond + ([Question] + middle)) == Done(Choose(c, a, b), post)
  {
    assert ([Question] + middle)[1..] == middle && ([Colon] + rest)[1..] == rest;
  }

  /** Round trip: printing any tree with only the parentheses it needs and parsing
      the result consumes every token and gives the tree's value, or its error. */
  lemma PrintThenParse(e: Expr)
    requires WellFormed(e)
    ensures Parse(Print(e, -1)) == Eval(e)
  {
    ReadTernary(e, []);
    assert Body(e) + [] == Body(e);
    assert Ternary([]).Fail?;
  }

  // ---- evaluated and unevaluated operands ----

  /** The short-circuit value over exact integers: operands that need not be
      evaluated are not. */
  function Lazy(e: Expr): Value {
    match e
    case Lit(n) => Val(n)
    case Prefix(op, x) => (match Lazy(x) case Err(er) => Err(er) case Val(v) => Val(ApplyPrefix(op, v)))
    case Infix(op, l, r) =>
      var a := Lazy(l);
      if a.Val? && op == OrOr && a.v != 0 then Val(1)
      else if a.Val? && op == AndAnd && a.v == 0 then Val(0)
      else Both(op, a, Lazy(r))
    case Cond(c, a, b) =>
      var v := Lazy(c);
      if v.Err? then v else if v.v != 0 then Lazy(a) else Lazy(b)
  }

  /** No operator of the tree, evaluated or not, divides by zero or shifts by a
      negative amount. */
  predicate Faultless(e: Expr) {
    match e
    case Lit(_) => true
    case Prefix(_, x) => Faultless(x)
    case Infix(op, l, r) =>
      && Faultless(l) && Faultless(r)
      && !((op == Slash || op == Percent) && Lazy(r) == Val(0))
      && !((op == Shl || op == Shr) && Lazy(r).Val? && Lazy(r).v < 0)
    case Cond(c, a, b) => Faultless(c) && Faultless(a) && Faultless(b)
  }

  /** The evaluator gives the short-circuit value exactly for the trees without a faulty operand
      anywhere; on any other tree it reports an error, even where there is a value. */
  lemma {:induction false} EagerMeetsLazy(e: Expr)
    requires WellFormed(e)
    ensures Faultless(e) <==> Eval(e).Val?
    ensures Faultless(e) ==> Lazy(e) == Eval(e)
    ensures Lazy(e).Val? ==> (Eval(e) == Lazy(e) <==> Faultless(e))
  {
    match e {
      case Lit(_) =>
      case Prefix(_, x) =>
        EagerMeetsLazy(x);
      case Infix(_, l, r) =>
        EagerMeetsLazy(l);
        EagerMeetsLazy(r);
      case Cond(c, a, b) =>
        EagerMeetsLazy(c);
        EagerMeetsLazy(a);
        EagerMeetsLazy(b);
    }
  }

  /** The difference is real: `1 || 1 / 0` is 1 with short-circuiting and an error here. */
  lemma UnevaluatedDivision()
    ensures var e := Infix(OrOr, Lit(1), Infix(Slash, Lit(1), Lit(0)));
            Lazy(e) == Val(1) && Parse(Print(e, -1)) == Err(DivByZero)
  {
    var e := Infix(OrOr, Lit(1), Infix(Slash, Lit(1), Lit(0)));
    PrintThenParse(e);
    assert Eval(e.r) == Err(DivByZero);
  }
}
