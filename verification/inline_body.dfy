/** Capturing the body of an inlinable function. */
module InlineBodies {
  import opened IL
  import opened Liveness

  /** One command of a lowered function; incoming parameters are loaded explicitly. */
  datatype Item = LoadArg(out: Value, num: nat, inRegister: bool) | Code(c: Cmd)

  /** A captured body: the parameters' values by argument index, and the commands. */
  datatype InlineBody = InlineBody(params: seq<Value>, ops: seq<Cmd>)

  const MAX_OPS := 24

  /** Commands an inlinable body may hold; `pure` names the opaque operators that
      compute a value from their inputs. */
  predicate Permitted(c: Cmd, pure: set<nat>) {
    match c
    case Op(code, _, _) => code == Add || code == Subtr || code == Mult || (code.Other? && code.name in pure)
    case Call(_, _, _) => false
    case Return(result) => |result| == 1
    case _ => true
  }

  predicate Unpinned(c: Cmd) {
    (forall o :: o in Inputs(c) ==> !o.Pinned?) && (forall o :: o in Outputs(c) ==> !o.Pinned?)
  }

  predicate ItemOk(x: Item, pure: set<nat>) {
    match x
    case LoadArg(_, _, inRegister) => inRegister
    case Code(c) => Permitted(c, pure) && Unpinned(c)
  }

  function BodyOf(items: seq<Item>): (r: seq<Cmd>)
    ensures forall c :: c in r <==> Code(c) in items
  {
    if items == [] then []
    else
      var x := items[|items| - 1];
      BodyOf(items[..|items| - 1]) + (if x.Code? then [x.c] else [])
  }

  function ParamsOf(items: seq<Item>): map<nat, Value> {
    if items == [] then map[]
    else
      var x := items[|items| - 1];
      var rest := ParamsOf(items[..|items| - 1]);
      if x.LoadArg? then rest[x.num := x.out] else rest
  }

  predicate Consecutive(m: map<nat, Value>) {
    forall i :: 0 <= i < |m| ==> i in m
  }

  ghost predicate Inlinable(items: seq<Item>, pure: set<nat>) {
    && (forall x :: x in items ==> ItemOk(x, pure))
    && (exists c :: c in BodyOf(items) && c.Return?)
    && |BodyOf(items)| <= MAX_OPS && Consecutive(ParamsOf(items))
  }

  function Captured(items: seq<Item>): InlineBody
    requires Consecutive(ParamsOf(items))
  {
    var m := ParamsOf(items);
    InlineBody(seq(|m|, i requires 0 <= i < |m| => m[i]), BodyOf(items))
  }

  /** The scan of a function: every condition is tested, and nothing else. */
  method Capture(items: seq<Item>, pure: set<nat>) returns (b: Option<InlineBody>)
    ensures b.Some? <==> Inlinable(items, pure)
    ensures b.Some? ==> b.value == Captured(items) && Leaf(b.value, pure)
  {
    var params: map<nat, Value>, body: seq<Cmd>, sawReturn := map[], [], false;
    for k := 0 to |items|
      invariant params == ParamsOf(items[..k]) && body == BodyOf(items[..k])
      invariant forall x :: x in items[..k] ==> ItemOk(x, pure)
      invariant sawReturn <==> exists c :: c in body && c.Return?
    {
      assert items[..k + 1][..k] == items[..k] && items[..k + 1] == items[..k] + [items[k]];
      if !ItemOk(items[k], pure) {
        return None;
      }
      match items[k] {
        case LoadArg(out, num, _) =>
          params := params[num := out];
        case Code(c) =>
          sawReturn := sawReturn || c.Return?;
          body := body + [c];
      }
    }
    assert items[..|items|] == items;
    if !sawReturn || |body| > MAX_OPS || !Consecutive(params) {
      return None;
    }
    CapturedIsLeaf(items, pure);
    return Some(InlineBody(seq(|params|, i requires 0 <= i < |params| => params[i]), body));
  }

  // ---- a captured body is a function of its arguments ----

  /** What capturing guarantees about a body. */
  ghost predicate Leaf(b: InlineBody, pure: set<nat>) {
    forall c :: c in b.ops ==> Permitted(c, pure) && Unpinned(c)
  }

  ghost predicate PureOps(I: Interp, pure: set<nat>) {
    forall name, xs, mem :: name in pure ==> I.other(name, xs, mem).1 == mem && I.other(name, xs, mem).0 == I.other(name, xs, Mem(map[], [])).0
  }

  lemma CapturedIsLeaf(items: seq<Item>, pure: set<nat>)
    requires Inlinable(items, pure)
    ensures Leaf(Captured(items), pure)
  {
    forall c | c in Captured(items).ops
      ensures Permitted(c, pure) && Unpinned(c)
    {
      assert ItemOk(Code(c), pure);
    }
  }

  lemma {:induction false} UnpinnedWrites(I: Interp, os: seq<Operand>, xs: seq<int>, env: Env, mem1: Mem, mem2: Mem)
    requires forall o :: o in os ==> !o.Pinned?
    ensures WriteAll(I, env, mem1, os, xs).0 == WriteAll(I, env, mem2, os, xs).0
    ensures WriteAll(I, env, mem1, os, xs).1 == mem1
    decreases |os|
  {
    if os != [] {
      var (env1, m1) := WriteOne(I, env, mem1, os[0], if xs == [] then 0 else xs[0]);
      var (env2, m2) := WriteOne(I, env, mem2, os[0], if xs == [] then 0 else xs[0]);
      assert env1 == env2 && m1 == mem1 && m2 == mem2;
      UnpinnedWrites(I, os[1..], if xs == [] then [] else xs[1..], env1, mem1, mem2);
    }
  }

  function WithMem(c: Config, mem: Mem): Config {
    match c
    case At(pc, env, _) => At(pc, env, mem)
    case Returned(result, _) => Returned(result, mem)
    case FellOff(_) => FellOff(mem)
    case NoTarget(_) => NoTarget(mem)
  }

  /** A step of a leaf body neither reads nor changes memory. */
  lemma LeafStep(b: InlineBody, pure: set<nat>, I: Interp, c: Config, mem: Mem)
    requires Leaf(b, pure) && PureOps(I, pure)
    ensures Step(b.ops, I, WithMem(c, mem)) == WithMem(Step(b.ops, I, c), mem)
    ensures Step(b.ops, I, c).mem == c.mem
  {
    if c.At? && c.pc < |b.ops| {
      var op := b.ops[c.pc];
      assert Permitted(op, pure) && Unpinned(op);
      assert EvalAll(I, c.env, c.mem, Inputs(op)) == EvalAll(I, c.env, mem, Inputs(op));
      match op {
        case Op(code, ins, outs) =>
          var xs := EvalAll(I, c.env, c.mem, ins);
          var r1, r2 := ExecOp(I, code, xs, c.mem), ExecOp(I, code, xs, mem);
          assert r1.0 == r2.0 && r1.1 == c.mem && r2.1 == mem;
          UnpinnedWrites(I, outs, r1.0, c.env, c.mem, mem);
          UnpinnedWrites(I, outs, r1.0, c.env, mem, c.mem);
        case Set(out, arg) =>
          assert arg in Inputs(op) && out in Outputs(op);
        case JumpZero(cond, _) =>
          assert cond in Inputs(op);
        case JumpNotZero(cond, _) =>
          assert cond in Inputs(op);
        case _ =>
      }
    }
  }

  /** A captured function is a pure function of its arguments: it leaves memory
      alone, and what it computes does not depend on memory. */
  lemma {:induction false} LeafRun(b: InlineBody, pure: set<nat>, I: Interp, c: Config, mem: Mem, n: nat)
    requires Leaf(b, pure) && PureOps(I, pure)
    ensures Run(b.ops, I, c, n).mem == c.mem
    ensures Run(b.ops, I, WithMem(c, mem), n) == WithMem(Run(b.ops, I, c, n), mem)
  {
    if n > 0 {
      LeafRun(b, pure, I, c, mem, n - 1);
      LeafStep(b, pure, I, Run(b.ops, I, c, n - 1), mem);
    }
  }
}
