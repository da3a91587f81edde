/** The same command executed in two environments that agree on what it reads. */
module SameCommands {
  import opened IL

  ghost predicate SameInputs(I: Interp, c: Cmd, e: Env, d: Env, mem: Mem) {
    forall o :: o in Inputs(c) ==> Eval(I, e, mem, o) == Eval(I, d, mem, o)
  }

  /** Both environments change in the same way, and only on the outputs of `c`. */
  ghost predicate SameWrites(os: seq<Operand>, e: Env, e1: Env, d: Env, d1: Env) {
    && (forall v {:trigger Get(e1, v)} {:trigger Get(d1, v)} :: Temp(v) in os ==> Get(e1, v) == Get(d1, v))
    && (forall v {:trigger Get(e1, v)} :: Temp(v) !in os ==> Get(e1, v) == Get(e, v))
    && (forall v {:trigger Get(d1, v)} :: Temp(v) !in os ==> Get(d1, v) == Get(d, v))
  }

  lemma {:induction false} WritesSame(I: Interp, os: seq<Operand>, xs: seq<int>, e: Env, d: Env, mem: Mem)
    ensures WriteAll(I, e, mem, os, xs).1 == WriteAll(I, d, mem, os, xs).1
    ensures SameWrites(os, e, WriteAll(I, e, mem, os, xs).0, d, WriteAll(I, d, mem, os, xs).0)
    decreases |os|
  {
    if os != [] {
      var x := if xs == [] then 0 else xs[0];
      var (e1, mem1) := WriteOne(I, e, mem, os[0], x);
      var (d1, _) := WriteOne(I, d, mem, os[0], x);
      assert forall o :: o in os <==> o == os[0] || o in os[1..];
      WritesSame(I, os[1..], if xs == [] then [] else xs[1..], e1, d1, mem1);
    }
  }

  predicate Taken(I: Interp, c: Cmd, e: Env, mem: Mem) {
    match c
    case Jump(_) => true
    case JumpZero(cond, _) => Eval(I, e, mem, cond) == 0
    case JumpNotZero(cond, _) => Eval(I, e, mem, cond) != 0
    case _ => false
  }

  /** What two related steps of the same command have in common. */
  ghost predicate StepsAlike(c: Cmd, i: nat, j: nat, e: Env, d: Env, s: Config, r: Config) {
    match s
    case At(pc, e1, mem1) => r.At? && pc == i + 1 && r.pc == j + 1 && r.mem == mem1 && SameWrites(Outputs(c), e, e1, d, r.env)
    case _ => r == s
  }

  lemma SameCommand(p: seq<Cmd>, q: seq<Cmd>, I: Interp, i: nat, j: nat, e: Env, d: Env, mem: Mem)
    requires i < |p| && j < |q| && q[j] == p[i] && SameInputs(I, p[i], e, d, mem)
    ensures Taken(I, p[i], e, mem) == Taken(I, p[i], d, mem)
    ensures Taken(I, p[i], e, mem) ==>
              && Step(p, I, At(i, e, mem)) == Goto(p, p[i].target, e, mem)
              && Step(q, I, At(j, d, mem)) == Goto(q, p[i].target, d, mem)
    ensures !Taken(I, p[i], e, mem) ==>
              StepsAlike(p[i], i, j, e, d, Step(p, I, At(i, e, mem)), Step(q, I, At(j, d, mem)))
  {
    var c := p[i];
    assert EvalAll(I, e, mem, Inputs(c)) == EvalAll(I, d, mem, Inputs(c));
    match c {
      case Op(code, ins, outs) =>
        var r := ExecOp(I, code, EvalAll(I, e, mem, ins), mem);
        WritesSame(I, outs, r.0, e, d, r.1);
      case Set(out, arg) =>
      case Call(fn, args, ret) =>
        var r := I.call(fn, EvalAll(I, e, mem, args), mem);
        WritesSame(I, ret, r.0, e, d, r.1);
      case _ =>
    }
  }
}
