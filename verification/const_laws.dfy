/** What the operators of `#if` mean and how they group, said without the evaluator's
    own tables: by classes of tokens listed loosest first, and by the laws of the
    operations. */
module ConstLaws {
  import opened ConstExprs

  // ---- grouping ----

  /** The binary operators, class by class, from loosest to tightest. */
  const CLASSES: seq<set<Tok>> := [
    {OrOr}, {AndAnd}, {Or}, {Xor}, {And},
    {Eq, Ne}, {Lt, Le, Gt, Ge}, {Shl, Shr},
    {Plus, Minus}, {Star, Slash, Percent}]

  predicate InClass(op: Tok, c: nat) { c < |CLASSES| && op in CLASSES[c] }

  lemma ClassIsLevel(op: Tok, c: nat)
    ensures InClass(op, c) <==> Level(op) == c
  {
    assert CLASSES[0] == {OrOr} && CLASSES[1] == {AndAnd} && CLASSES[2] == {Or} && CLASSES[3] == {Xor} && CLASSES[4] == {And};
    assert CLASSES[5] == {Eq, Ne} && CLASSES[6] == {Lt, Le, Gt, Ge} && CLASSES[7] == {Shl, Shr};
    assert CLASSES[8] == {Plus, Minus} && CLASSES[9] == {Star, Slash, Percent};
  }

  /** How three operands with two operators between them group. */
  function Grouped(x: Expr, o1: Tok, y: Expr, o2: Tok, z: Expr, left: bool): Expr {
    if left then Infix(o2, Infix(o1, x, y), z) else Infix(o1, x, Infix(o2, y, z))
  }

  /** Operands written so that they stand on their own: literals, operators applied to
      such, or anything in parentheses. */
  function Operand(e: Expr): seq<Tok> { Print(e, LEVELS) }

  /** Three operands and two operators without parentheses between them group to the
      left if the first operator's class is the same as or tighter than the second's,
      and to the right otherwise. */
  lemma GroupsByClass(x: Expr, o1: Tok, y: Expr, o2: Tok, z: Expr, c1: nat, c2: nat)
    requires WellFormed(x) && WellFormed(y) && WellFormed(z) && InClass(o1, c1) && InClass(o2, c2)
    ensures Parse(Operand(x) + [o1] + Operand(y) + [o2] + Operand(z)) == Eval(Grouped(x, o1, y, o2, z, c1 >= c2))
  {
    ClassIsLevel(o1, c1);
    ClassIsLevel(o2, c2);
    FiveParts(Operand(x), o1, Operand(y), o2, Operand(z));
    GroupedValue(x, o1, y, o2, z);
    if c1 >= c2 {
      GroupsLeft(x, o1, y, o2, z);
    } else {
      GroupsRight(x, o1, y, o2, z);
    }
  }

  lemma FiveParts(xs: seq<Tok>, o1: Tok, ys: seq<Tok>, o2: Tok, zs: seq<Tok>)
    ensures xs + [o1] + ys + [o2] + zs == xs + ([o1] + (ys + ([o2] + zs)))
  {
  }

  /** An operand read at any level stops at the operator that follows it. */
  lemma {:induction false} OperandReads(e: Expr, post: seq<Tok>, level: nat)
    requires WellFormed(e) && level <= LEVELS && Stops(post, level + 1)
    ensures Binary(Operand(e) + post, level) == Then(Eval(e), level, post)
    decreases LEVELS - level
  {
    if level == LEVELS {
      ReadBack(e, LEVELS, post);
    } else {
      OperandReads(e, post, level + 1);
      Climb(Operand(e) + post, Eval(e), level, post);
    }
  }

  /** A parse whose loosest loop, at level 0, ends at the end of the tokens. */
  lemma ParseIsBinary(ts: seq<Tok>, v: Value)
    requires ts != [] && Binary(ts, 0) == Done(v, [])
    ensures Parse(ts) == v
  {
  }

  /** Climbing from a level down to the loosest, nothing follows. */
  lemma {:induction false} ClimbDown(ts: seq<Tok>, v: Value, level: nat)
    requires level <= LEVELS && Binary(ts, level) == Then(v, level, [])
    ensures Binary(ts, 0) == Done(v, [])
  {
    if level > 0 {
      Climb(ts, v, level - 1, []);
      ClimbDown(ts, v, level - 1);
    }
  }

  /** Where an operand of the next level has been read and nothing continues it. */
  lemma ThenIsDone(v: Value, level: nat, post: seq<Tok>)
    requires level <= LEVELS && Stops(post, level)
    ensures Then(v, level, post) == Done(v, post)
  {
  }

  /** An operator of the level being read, and the operand behind it. */
  lemma OneOperator(ts: seq<Tok>, v: Value, l: nat, op: Tok, right: seq<Tok>, w: Value, post: seq<Tok>)
    requires Level(op) == l && Binary(ts, l) == Then(v, l, [op] + right) && Binary(right, l + 1) == Done(w, post)
    ensures Binary(ts, l) == Then(Both(op, v, w), l, post)
  {
    if v.Val? {
      OperatorStep(op, l, v.v, right);
    }
  }

  /** One operator between two operands, followed by something looser or equal. */
  lemma TwoRead(x: Expr, op: Tok, y: Expr, post: seq<Tok>, l: nat)
    requires WellFormed(x) && WellFormed(y) && Level(op) == l && Stops(post, l + 1)
    ensures Binary(Operand(x) + ([op] + (Operand(y) + post)), l) == Then(Both(op, Eval(x), Eval(y)), l, post)
  {
    var right := Operand(y) + post;
    OperandReads(x, [op] + right, l);
    OperandReads(y, post, l + 1);
    ThenIsDone(Eval(y), l + 1, post);
    OneOperator(Operand(x) + ([op] + right), Eval(x), l, op, right, Eval(y), post);
  }

  /** From one level down to another, with something no tighter than that following. */
  lemma {:induction false} DownTo(ts: seq<Tok>, v: Value, from: nat, to: nat, post: seq<Tok>)
    requires to <= from <= LEVELS && Binary(ts, from) == Then(v, from, post) && Stops(post, to + 1)
    ensures Binary(ts, to) == Then(v, to, post)
    decreases from
  {
    if to < from {
      Climb(ts, v, from - 1, post);
      DownTo(ts, v, from - 1, to, post);
    }
  }

  lemma LeftRest(all: seq<Tok>, a: Value, l1: nat, l2: nat, o2: Tok, zs: seq<Tok>, w: Value)
    requires l2 <= l1 < LEVELS && Level(o2) == l2 && all != []
    requires Binary(all, l1) == Then(a, l1, [o2] + zs) && Binary(zs, l2 + 1) == Done(w, [])
    ensures Parse(all) == Both(o2, a, w)
  {
    DownTo(all, a, l1, l2, [o2] + zs);
    OneOperator(all, a, l2, o2, zs, w, []);
    WholeRead(all, Both(o2, a, w), l2);
  }

  lemma GroupsLeft(x: Expr, o1: Tok, y: Expr, o2: Tok, z: Expr)
    requires WellFormed(x) && WellFormed(y) && WellFormed(z) && 0 <= Level(o2) <= Level(o1)
    ensures Parse(Operand(x) + ([o1] + (Operand(y) + ([o2] + Operand(z))))) == Both(o2, Both(o1, Eval(x), Eval(y)), Eval(z))
  {
    TwoRead(x, o1, y, [o2] + Operand(z), Level(o1));
    LastOperand(z, Level(o2) + 1);
    LeftRest(Operand(x) + ([o1] + (Operand(y) + ([o2] + Operand(z)))), Both(o1, Eval(x), Eval(y)), Level(o1), Level(o2), o2, Operand(z), Eval(z));
  }

  lemma GroupedValue(x: Expr, o1: Tok, y: Expr, o2: Tok, z: Expr)
    ensures Eval(Grouped(x, o1, y, o2, z, true)) == Both(o2, Both(o1, Eval(x), Eval(y)), Eval(z))
    ensures Eval(Grouped(x, o1, y, o2, z, false)) == Both(o1, Eval(x), Both(o2, Eval(y), Eval(z)))
  {
    assert Eval(Infix(o1, x, y)) == Both(o1, Eval(x), Eval(y));
    assert Eval(Infix(o2, y, z)) == Both(o2, Eval(y), Eval(z));
  }

  lemma LastOperand(z: Expr, level: nat)
    requires WellFormed(z) && level <= LEVELS
    ensures Binary(Operand(z), level) == Done(Eval(z), [])
  {
    OperandReads(z, [], level);
    assert Operand(z) + [] == Operand(z);
  }

  lemma WholeRead(ts: seq<Tok>, v: Value, level: nat)
    requires ts != [] && level <= LEVELS && Binary(ts, level) == Then(v, level, [])
    ensures Parse(ts) == v
  {
    ClimbDown(ts, v, level);
    ParseIsBinary(ts, v);
  }

  lemma RightRest(all: seq<Tok>, v: Value, o1: Tok, right: seq<Tok>, b: Value, l1: nat, l2: nat)
    requires l1 < l2 < LEVELS && Level(o1) == l1 && all != []
    requires Binary(all, l1) == Then(v, l1, [o1] + right) && Binary(right, l2) == Then(b, l2, [])
    ensures Parse(all) == Both(o1, v, b)
  {
    DownTo(right, b, l2, l1 + 1, []);
    ThenIsDone(b, l1 + 1, []);
    OneOperator(all, v, l1, o1, right, b, []);
    WholeRead(all, Both(o1, v, b), l1);
  }

  lemma GroupsRight(x: Expr, o1: Tok, y: Expr, o2: Tok, z: Expr)
    requires WellFormed(x) && WellFormed(y) && WellFormed(z) && 0 <= Level(o1) < Level(o2)
    ensures Parse(Operand(x) + ([o1] + (Operand(y) + ([o2] + Operand(z))))) == Both(o1, Eval(x), Both(o2, Eval(y), Eval(z)))
  {
    var right := Operand(y) + ([o2] + Operand(z));
    assert Operand(z) + [] == Operand(z);
    TwoRead(y, o2, z, [], Level(o2));
    OperandReads(x, [o1] + right, Level(o1));
    RightRest(Operand(x) + ([o1] + right), Eval(x), o1, right, Both(o2, Eval(y), Eval(z)), Level(o1), Level(o2));
  }

  lemma NumberOperand(n: int)
    ensures Operand(Lit(n)) == [Num(n)]
  {
    assert Body(Lit(n)) == [Num(n)];
  }

  /** In particular for numbers. */
  lemma NumbersGroup(a: int, o1: Tok, b: int, o2: Tok, c: int, c1: nat, c2: nat)
    requires InClass(o1, c1) && InClass(o2, c2)
    ensures Parse([Num(a), o1, Num(b), o2, Num(c)])
            == if c1 >= c2 then Both(o2, Apply(o1, a, b), Val(c)) else Both(o1, Val(a), Apply(o2, b, c))
  {
    GroupsByClass(Lit(a), o1, Lit(b), o2, Lit(c), c1, c2);
    GroupedValue(Lit(a), o1, Lit(b), o2, Lit(c));
    NumberOperand(a);
    NumberOperand(b);
    NumberOperand(c);
    assert [Num(a)] + [o1] + [Num(b)] + [o2] + [Num(c)] == [Num(a), o1, Num(b), o2, Num(c)];
  }

  /** A prefix operator takes the operand next to it and no more. */
  lemma PrefixIsTightest(p: Tok, a: int, op: Tok, b: int, c: nat)
    requires IsPrefix(p) && InClass(op, c)
    ensures Parse([p, Num(a), op, Num(b)]) == Apply(op, ApplyPrefix(p, a), b)
  {
    ClassIsLevel(op, c);
    var x, y := Prefix(p, Lit(a)), Lit(b);
    TwoRead(x, op, y, [], c);
    NumberOperand(a);
    NumberOperand(b);
    assert Body(x) == [p] + Operand(Lit(a));
    assert Operand(x) == [p, Num(a)];
    var ts := Operand(x) + ([op] + (Operand(y) + []));
    assert ts == [p, Num(a), op, Num(b)];
    WholeRead(ts, Both(op, Eval(x), Eval(y)), c);
  }

  /** The conditional is looser than every binary operator and nests to the right. */
  lemma ConditionalIsLoosest(a: int, op: Tok, b: int, c: int, d: int, k: nat)
    requires InClass(op, k)
    ensures Parse([Num(a), op, Num(b), Question, Num(c), Colon, Num(d)]) == Choose(Apply(op, a, b), Val(c), Val(d))
  {
    ClassIsLevel(op, k);
    var test := Infix(op, Lit(a), Lit(b));
    assert Body(Lit(a)) == [Num(a)] && Body(Lit(b)) == [Num(b)] && Body(Lit(c)) == [Num(c)] && Body(Lit(d)) == [Num(d)];
    assert Print(Lit(a), Level(op)) == [Num(a)] && Print(Lit(b), Level(op) + 1) == [Num(b)];
    assert Body(test) == [Num(a), op, Num(b)] && Eval(test) == Apply(op, a, b);
    assert Print(test, 0) == Body(test) && Print(Lit(c), -1) == [Num(c)] && Print(Lit(d), -1) == [Num(d)];
    assert Body(Cond(test, Lit(c), Lit(d))) == Print(test, 0) + ([Question] + ([Num(c)] + ([Colon] + [Num(d)])));
    PrintThenParse(Cond(test, Lit(c), Lit(d)));
    assert Print(Cond(test, Lit(c), Lit(d)), -1) == [Num(a), op, Num(b), Question, Num(c), Colon, Num(d)];
  }

  lemma ConditionalNests(a: int, b: int, c: int, d: int, e: int)
    ensures Parse([Num(a), Question, Num(b), Colon, Num(c), Question, Num(d), Colon, Num(e)])
            == Val(if a != 0 then b else if c != 0 then d else e)
  {
    var inner := Cond(Lit(c), Lit(d), Lit(e));
    assert Body(Lit(a)) == [Num(a)] && Body(Lit(b)) == [Num(b)] && Body(Lit(c)) == [Num(c)] && Body(Lit(d)) == [Num(d)] && Body(Lit(e)) == [Num(e)];
    assert Print(Lit(a), 0) == [Num(a)] && Print(Lit(b), -1) == [Num(b)] && Print(Lit(c), 0) == [Num(c)];
    assert Print(Lit(d), -1) == [Num(d)] && Print(Lit(e), -1) == [Num(e)];
    assert Body(inner) == [Num(c)] + ([Question] + ([Num(d)] + ([Colon] + [Num(e)])));
    assert Print(inner, -1) == Body(inner);
    assert Body(Cond(Lit(a), Lit(b), inner)) == [Num(a)] + ([Question] + ([Num(b)] + ([Colon] + Body(inner))));
    assert Body(inner) == [Num(c), Question, Num(d), Colon, Num(e)] && Eval(inner) == Val(if c != 0 then d else e);
    PrintThenParse(Cond(Lit(a), Lit(b), inner));
    assert Print(Cond(Lit(a), Lit(b), inner), -1)
        == [Num(a), Question, Num(b), Colon, Num(c), Question, Num(d), Colon, Num(e)];
  }

  // ---- what the operators compute ----

  function Of(v: Value): int { if v.Val? then v.v else 0 }

  /** Sums count up and differences undo sums. */
  lemma AdditionLaws(a: int, b: int)
    ensures Apply(Plus, a, 0) == Val(a) && Of(Apply(Plus, a, b + 1)) == Of(Apply(Plus, a, b)) + 1
    ensures Apply(Minus, Of(Apply(Plus, a, b)), b) == Val(a) && Apply(Plus, Of(Apply(Minus, a, b)), b) == Val(a)
  {
  }

  /** Products are repeated sums. */
  lemma MultiplicationLaws(a: int, b: int)
    ensures Apply(Star, a, 0) == Val(0)
    ensures Apply(Star, a, b + 1) == Apply(Plus, Of(Apply(Star, a, b)), a)
  {
    assert a * (b + 1) == a * b + a;
  }

  /** `<` is the strict order in which adding one is the next number; the other
      comparisons are what it makes them. */
  lemma OrderLaws(a: int, b: int, c: int)
    ensures Apply(Lt, a, a) == Val(0) && Apply(Lt, a, Of(Apply(Plus, a, 1))) == Val(1)
    ensures Apply(Lt, a, b) == Val(1) && Apply(Lt, b, c) == Val(1) ==> Apply(Lt, a, c) == Val(1)
    ensures Of(Apply(Lt, a, b)) + Of(Apply(Eq, a, b)) + Of(Apply(Lt, b, a)) == 1
    ensures Apply(Gt, a, b) == Apply(Lt, b, a)
    ensures Of(Apply(Le, a, b)) == 1 - Of(Apply(Gt, a, b)) && Of(Apply(Ge, a, b)) == 1 - Of(Apply(Lt, a, b))
    ensures Of(Apply(Ne, a, b)) == 1 - Of(Apply(Eq, a, b))
    ensures Apply(Eq, a, b) == Val(1) <==> a == b
    ensures forall op :: op in {Lt, Le, Gt, Ge, Eq, Ne} ==> Apply(op, a, b) == Val(0) || Apply(op, a, b) == Val(1)
  {
  }

  /** Shifting left by one doubles; shifting right undoes shifting left and rounds down. */
  lemma ShiftLaws(a: int, n: nat)
    ensures Apply(Shl, a, 0) == Val(a) && Apply(Shl, a, n + 1) == Apply(Star, Of(Apply(Shl, a, n)), 2)
    ensures Apply(Shr, Of(Apply(Shl, a, n)), n) == Val(a)
    ensures var q := Of(Apply(Shr, a, n)); Of(Apply(Shl, q, n)) <= a < Of(Apply(Shl, q + 1, n))
  {
    var p := Pow2(n);
    assert a * (2 * p) == a * p * 2;
    Undoes(a, p);
    RoundsDown(a, p);
  }

  lemma Undoes(a: int, p: int)
    requires p > 0
    ensures a * p / p == a
  {
    var q, r := a * p / p, a * p % p;
    assert (a - q) * p == r;
    AtLeast(p, a - q);
    assert p * (a - q) == (a - q) * p;
  }

  lemma RoundsDown(a: int, p: int)
    requires p > 0
    ensures a / p * p <= a < (a / p + 1) * p
  {
    var q, r := a / p, a % p;
    assert a == q * p + r;
    assert (q + 1) * p == q * p + p;
  }

  /** A negative shift amount is an error either way. */
  lemma NegativeShifts(a: int, n: int)
    requires n < 0
    ensures Apply(Shl, a, n) == Err(NegativeShift) && Apply(Shr, a, n) == Err(NegativeShift)
  {
  }

  /** `||` and `&&` ask which operands are non-zero, and answer 1 or 0. */
  lemma TruthLaws(a: int, b: int)
    ensures Apply(OrOr, a, b) == (if a == 0 && b == 0 then Val(0) else Val(1))
    ensures Apply(AndAnd, a, b) == (if a == 0 || b == 0 then Val(0) else Val(1))
    ensures ApplyPrefix(Bang, a) == (if a == 0 then 1 else 0)
  {
  }

  /** Unary minus gives what adds up to zero, unary plus nothing new, and `~` turns
      every bit over. */
  lemma {:induction false} PrefixLaws(a: int, i: nat)
    ensures Apply(Plus, a, ApplyPrefix(Minus, a)) == Val(0) && ApplyPrefix(Plus, a) == a
    ensures Bit(ApplyPrefix(Tilde, a), i) == 1 - Bit(a, i)
    decreases i
  {
    if i > 0 {
      PrefixLaws(a / 2, i - 1);
      assert (-a - 1) / 2 == -(a / 2) - 1;
    }
  }
}
