/** The flat three-address intermediate language: commands, control-flow
    successors, and a deterministic small-step semantics.

    A program is a command list; a configuration is a command index, an
    environment of temporaries and a memory.  What an opaque operation, an
    external call, or a global does is a parameter (`Interp`) of the semantics,
    so every theorem holds for all of them. */
module IL {

  /** A register-allocatable IL value; the two kinds use different register files. */
  datatype Value = Value(id: nat, floating: bool)

  /** What a command reads or writes: a temporary, a literal, or a value whose
      home is fixed in memory (a global or an address-taken local). */
  datatype Operand = Temp(v: Value) | Lit(n: int) | Pinned(symbol: nat)

  datatype OpCode = Add | Subtr | Mult | ReadAt | SetAt | Other(name: nat)

  datatype Cmd =
    | Op(code: OpCode, ins: seq<Operand>, outs: seq<Operand>)
    | Set(out: Operand, arg: Operand)
    | Label(name: nat)
    | Jump(target: nat)
    | JumpZero(cond: Operand, target: nat)
    | JumpNotZero(cond: Operand, target: nat)
    | Call(fn: nat, args: seq<Operand>, ret: seq<Operand>)
    | Return(result: seq<Operand>)

  // ---- commands seen by the analyses ----

  function Inputs(c: Cmd): seq<Operand> {
    match c
    case Op(_, ins, _) => ins
    case Set(_, arg) => [arg]
    case JumpZero(cond, _) => [cond]
    case JumpNotZero(cond, _) => [cond]
    case Call(_, args, _) => args
    case Return(result) => result
    case _ => []
  }

  function Outputs(c: Cmd): seq<Operand> {
    match c
    case Op(_, _, outs) => outs
    case Set(out, _) => [out]
    case Call(_, _, ret) => ret
    case _ => []
  }

  /** The temporaries among `s`, in order. */
  function Temps(s: seq<Operand>): (r: seq<Value>)
    ensures forall v :: v in r <==> Temp(v) in s
  {
    if s == [] then []
    else if s[0].Temp? then [s[0].v] + Temps(s[1..])
    else Temps(s[1..])
  }

  function Uses(c: Cmd): seq<Value> { Temps(Inputs(c)) }

  function Defs(c: Cmd): seq<Value> { Temps(Outputs(c)) }

  predicate IsJump(c: Cmd) {
    c.Jump? || c.JumpZero? || c.JumpNotZero?
  }

  // ---- control flow ----

  datatype Option<T> = None | Some(value: T)

  /** Index of the last command that is `Label(l)`: what a left-to-right scan
      that overwrites a label table ends with. */
  function TargetIn(p: seq<Cmd>, l: nat): (r: Option<nat>)
    ensures r.Some? ==> r.value < |p| && p[r.value] == Label(l)
    ensures r.None? ==> forall i :: 0 <= i < |p| ==> p[i] != Label(l)
  {
    if p == [] then None
    else if p[|p| - 1] == Label(l) then Some(|p| - 1)
    else TargetIn(p[..|p| - 1], l)
  }

  function Fallthrough(p: seq<Cmd>, i: nat): seq<nat> {
    if i + 1 < |p| then [i + 1] else []
  }

  function Branch(p: seq<Cmd>, l: nat): seq<nat> {
    match TargetIn(p, l)
    case Some(t) => [t]
    case None => []
  }

  /** Successor indices of command `i`, in the order the liveness pass lists them. */
  function Succ(p: seq<Cmd>, i: nat): (r: seq<nat>)
    requires i < |p|
    ensures forall s :: s in r ==> s < |p|
  {
    match p[i]
    case Return(_) => []
    case Jump(l) => Branch(p, l)
    case JumpZero(_, l) => Fallthrough(p, i) + Branch(p, l)
    case JumpNotZero(_, l) => Fallthrough(p, i) + Branch(p, l)
    case _ => Fallthrough(p, i)
  }

  // ---- semantics ----

  type Env = map<Value, int>

  datatype Access = Load(addr: int, got: int) | Store(addr: int, put: int)

  /** Memory cells together with the accesses made so far. */
  datatype Mem = Mem(cells: map<int, int>, trace: seq<Access>)

  datatype Interp = Interp(
    other: (nat, seq<int>, Mem) -> (seq<int>, Mem),
    call: (nat, seq<int>, Mem) -> (seq<int>, Mem),
    load: (nat, Mem) -> int,
    store: (nat, int, Mem) -> Mem)

  function Get<K>(m: map<K, int>, k: K): int {
    if k in m then m[k] else 0
  }

  function Eval(I: Interp, env: Env, mem: Mem, o: Operand): int {
    match o
    case Temp(v) => Get(env, v)
    case Lit(n) => n
    case Pinned(k) => I.load(k, mem)
  }

  function EvalAll(I: Interp, env: Env, mem: Mem, os: seq<Operand>): (r: seq<int>)
    ensures |r| == |os|
  {
    seq(|os|, i requires 0 <= i < |os| => Eval(I, env, mem, os[i]))
  }

  function ExecOp(I: Interp, code: OpCode, xs: seq<int>, mem: Mem): (seq<int>, Mem) {
    match code
    case Add => (if |xs| == 2 then [xs[0] + xs[1]] else [], mem)
    case Subtr => (if |xs| == 2 then [xs[0] - xs[1]] else [], mem)
    case Mult => (if |xs| == 2 then [xs[0] * xs[1]] else [], mem)
    case ReadAt =>
      if |xs| == 1 then
        var got := Get(mem.cells, xs[0]);
        ([got], mem.(trace := mem.trace + [Load(xs[0], got)]))
      else ([], mem)
    case SetAt =>
      if |xs| == 2 then
        ([], Mem(mem.cells[xs[0] := xs[1]], mem.trace + [Store(xs[0], xs[1])]))
      else ([], mem)
    case Other(name) => I.other(name, xs, mem)
  }

  function WriteOne(I: Interp, env: Env, mem: Mem, o: Operand, x: int): (Env, Mem) {
    match o
    case Temp(v) => (env[v := x], mem)
    case Lit(_) => (env, mem)
    case Pinned(k) => (env, I.store(k, x, mem))
  }

  /** Write `xs` to the operands `os` from left to right; a missing result is 0. */
  function WriteAll(I: Interp, env: Env, mem: Mem, os: seq<Operand>, xs: seq<int>): (Env, Mem)
    decreases |os|
  {
    if os == [] then (env, mem)
    else
      var (env1, mem1) := WriteOne(I, env, mem, os[0], if xs == [] then 0 else xs[0]);
      WriteAll(I, env1, mem1, os[1..], if xs == [] then [] else xs[1..])
  }

  datatype Config =
    | At(pc: nat, env: Env, mem: Mem)
    | Returned(result: seq<int>, mem: Mem)
    | FellOff(mem: Mem)
    | NoTarget(mem: Mem)

  function Goto(p: seq<Cmd>, l: nat, env: Env, mem: Mem): Config {
    match TargetIn(p, l)
    case Some(t) => At(t, env, mem)
    case None => NoTarget(mem)
  }

  function Step(p: seq<Cmd>, I: Interp, c: Config): Config {
    if !c.At? then c
    else if c.pc >= |p| then FellOff(c.mem)
    else
      var At(pc, env, mem) := c;
      match p[pc]
      case Op(code, ins, outs) =>
        var (xs, mem1) := ExecOp(I, code, EvalAll(I, env, mem, ins), mem);
        var (env2, mem2) := WriteAll(I, env, mem1, outs, xs);
        At(pc + 1, env2, mem2)
      case Set(out, arg) =>
        var (env1, mem1) := WriteOne(I, env, mem, out, Eval(I, env, mem, arg));
        At(pc + 1, env1, mem1)
      case Label(_) => At(pc + 1, env, mem)
      case Jump(l) => Goto(p, l, env, mem)
      case JumpZero(cond, l) =>
        if Eval(I, env, mem, cond) == 0 then Goto(p, l, env, mem) else At(pc + 1, env, mem)
      case JumpNotZero(cond, l) =>
        if Eval(I, env, mem, cond) != 0 then Goto(p, l, env, mem) else At(pc + 1, env, mem)
      case Call(fn, args, ret) =>
        var (xs, mem1) := I.call(fn, EvalAll(I, env, mem, args), mem);
        var (env2, mem2) := WriteAll(I, env, mem1, ret, xs);
        At(pc + 1, env2, mem2)
      case Return(result) => Returned(EvalAll(I, env, mem, result), mem)
  }

  function Run(p: seq<Cmd>, I: Interp, c: Config, n: nat): Config {
    if n == 0 then c else Step(p, I, Run(p, I, c, n - 1))
  }

  /** The listed successors are exactly the indices control can reach next:
      a step never leaves them, except by running off the end of the list. */
  lemma StepFollowsSucc(p: seq<Cmd>, I: Interp, c: Config)
    requires c.At? && c.pc < |p|
    ensures Step(p, I, c).At? ==> Step(p, I, c).pc in Succ(p, c.pc) || Step(p, I, c).pc == |p|
  {
    if c.pc + 1 < |p| {
      assert Fallthrough(p, c.pc)[0] == c.pc + 1;
    }
    if IsJump(p[c.pc]) && TargetIn(p, p[c.pc].target).Some? {
      assert Branch(p, p[c.pc].target)[0] == TargetIn(p, p[c.pc].target).value;
    }
  }

  /** Every listed successor is reached by a step from some state, for some meaning of
      the operations, unless a branch tests a literal. */
  lemma SuccIsReached(p: seq<Cmd>, i: nat, s: nat)
    requires i < |p| && s in Succ(p, i)
    requires (p[i].JumpZero? || p[i].JumpNotZero?) ==> !p[i].cond.Lit?
    ensures exists I, env, mem :: Step(p, I, At(i, env, mem)).At? && Step(p, I, At(i, env, mem)).pc == s
  {
    var mem := Mem(map[], []);
    var zero, one := Constant(0), Constant(1);
    match p[i] {
      case JumpZero(cond, l) =>
        var env: Env := if cond.Temp? then map[cond.v := 1] else map[];
        assert Eval(zero, map[], mem, cond) == 0 && Eval(one, env, mem, cond) == 1;
        assert Step(p, zero, At(i, map[], mem)) == Goto(p, l, map[], mem);
        assert Step(p, one, At(i, env, mem)) == At(i + 1, env, mem);
      case JumpNotZero(cond, l) =>
        var env: Env := if cond.Temp? then map[cond.v := 1] else map[];
        assert Eval(zero, map[], mem, cond) == 0 && Eval(one, env, mem, cond) == 1;
        assert Step(p, one, At(i, env, mem)) == Goto(p, l, env, mem);
        assert Step(p, zero, At(i, map[], mem)) == At(i + 1, map[], mem);
      case Return(_) =>
      case _ =>
        assert Step(p, zero, At(i, map[], mem)).At?;
    }
  }

  /** Memory-homed values always read as `n`, and nothing else does anything. */
  function Constant(n: int): Interp {
    Interp((_: nat, _: seq<int>, mem: Mem) => ([], mem), (_: nat, _: seq<int>, mem: Mem) => ([], mem),
           (_: nat, _: Mem) => n, (_: nat, _: int, mem: Mem) => mem)
  }

  lemma {:induction false} RunAdds(p: seq<Cmd>, I: Interp, c: Config, m: nat, n: nat)
    ensures Run(p, I, c, m + n) == Run(p, I, Run(p, I, c, m), n)
  {
    if n > 0 {
      RunAdds(p, I, c, m, n - 1);
    }
  }
}
