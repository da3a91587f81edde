/** A run of the renamed program is a run of the original one. */
module CoalescedRun {
  import opened IL
  import opened UseCounts
  import opened CopyCoalescing

  ghost predicate EnvOk(coal: Coalesced, i: nat, env: Env, env1: Env) {
    forall v :: Current(coal, i, v) ==> Get(env1, Canon(coal, v)) == Get(env, v)
  }

  ghost predicate Same(coal: Coalesced, c: Config, d: Config) {
    match c
    case At(pc, env, mem) => d.At? && d.pc == pc && d.mem == mem && EnvOk(coal, pc, env, d.env)
    case _ => d == c
  }

  lemma {:induction false} SameTargets(coal: Coalesced, p: seq<Cmd>, l: nat)
    ensures TargetIn(Rename(coal, p), l) == TargetIn(p, l)
    decreases |p|
  {
    if p != [] {
      var n := |p| - 1;
      assert Rename(coal, p)[n] == RenameCmd(coal, p[n]);
      assert Rename(coal, p)[..n] == Rename(coal, p[..n]);
      SameTargets(coal, p[..n], l);
    }
  }

  lemma EvalRenamed(p: seq<Cmd>, I: Interp, coal: Coalesced, i: nat, env: Env, env1: Env, mem: Mem)
    requires Safe(p, coal) && i < |p| && EnvOk(coal, i, env, env1)
    ensures EvalAll(I, env1, mem, RenameAll(coal, Inputs(p[i]))) == EvalAll(I, env, mem, Inputs(p[i]))
    ensures forall o :: o in Inputs(p[i]) ==> Eval(I, env1, mem, RenameOperand(coal, o)) == Eval(I, env, mem, o)
  {
    forall o | o in Inputs(p[i])
      ensures Eval(I, env1, mem, RenameOperand(coal, o)) == Eval(I, env, mem, o)
    {
      if o.Temp? {
        InputsCurrent(p, coal, i, o.v);
      }
    }
  }

  lemma {:induction false} WriteRenamed(I: Interp, coal: Coalesced, keep: iset<Value>, env: Env, env1: Env, mem: Mem,
                                        os: seq<Operand>, xs: seq<int>)
    requires forall v :: v in keep ==> Get(env1, Canon(coal, v)) == Get(env, v)
    requires forall d, w :: Temp(d) in os && (w in keep || Temp(w) in os) && d != w ==> Canon(coal, d) != Canon(coal, w)
    ensures var (a, memA) := WriteAll(I, env, mem, os, xs);
            var (b, memB) := WriteAll(I, env1, mem, RenameAll(coal, os), xs);
            memA == memB && forall v :: v in keep || Temp(v) in os ==> Get(b, Canon(coal, v)) == Get(a, v)
    decreases |os|
  {
    if os != [] {
      var x := if xs == [] then 0 else xs[0];
      assert RenameAll(coal, os)[0] == RenameOperand(coal, os[0]);
      assert RenameAll(coal, os)[1..] == RenameAll(coal, os[1..]);
      var (a1, mem1) := WriteOne(I, env, mem, os[0], x);
      var (b1, _) := WriteOne(I, env1, mem, RenameOperand(coal, os[0]), x);
      var keep1 := if os[0].Temp? then keep + iset{os[0].v} else keep;
      assert forall v :: Temp(v) in os <==> os[0] == Temp(v) || Temp(v) in os[1..];
      WriteRenamed(I, coal, keep1, a1, b1, mem1, os[1..], if xs == [] then [] else xs[1..]);
    }
  }

  /** A straight-line command's results land where the renamed program looks. */
  lemma WritesAgree(p: seq<Cmd>, I: Interp, coal: Coalesced, i: nat, env: Env, env1: Env, mem: Mem, xs: seq<int>)
    requires Safe(p, coal) && i < |p| && EnvOk(coal, i, env, env1)
    ensures var (a, memA) := WriteAll(I, env, mem, Outputs(p[i]), xs);
            var (b, memB) := WriteAll(I, env1, mem, RenameAll(coal, Outputs(p[i])), xs);
            memA == memB && EnvOk(coal, i + 1, a, b)
  {
    var os := Outputs(p[i]);
    var keep := iset v | Current(coal, i + 1, v) && v !in Defs(p[i]);
    forall v | v in keep
      ensures Get(env1, Canon(coal, v)) == Get(env, v)
    {
      CurrentAfter(p, coal, i, v);
    }
    forall d, w | Temp(d) in os && (w in keep || Temp(w) in os) && d != w
      ensures Canon(coal, d) != Canon(coal, w)
    {
      NoCollision(p, coal, i, d, w);
    }
    WriteRenamed(I, coal, keep, env, env1, mem, os, xs);
  }

  lemma NotInWindow(p: seq<Cmd>, t: Value, c: Copy, i: nat)
    requires Accepted(p, t, c) && i < |p| && Breaks(p[i])
    ensures !(c.def < i <= c.at)
  {
  }

  /** No window spans a jump or a label. */
  lemma JumpCurrent(p: seq<Cmd>, coal: Coalesced, i: nat, t: nat, v: Value)
    requires Safe(p, coal) && i < |p| && t < |p| && IsJump(p[i]) && p[t].Label? && Current(coal, t, v)
    ensures Current(coal, i, v)
  {
    if v in coal {
      assert LinkSafe(p, coal, v);
      NotInWindow(p, v, coal[v], t);
    } else {
      forall u | u in coal && Canon(coal, u) == v
        ensures !Held(coal, i, u)
      {
        assert LinkSafe(p, coal, u);
        NotInWindow(p, u, coal[u], i);
      }
    }
  }

  lemma GotoSame(p: seq<Cmd>, coal: Coalesced, i: nat, env: Env, env1: Env, mem: Mem)
    requires Safe(p, coal) && i < |p| && IsJump(p[i]) && EnvOk(coal, i, env, env1)
    ensures Same(coal, Goto(p, p[i].target, env, mem), Goto(Rename(coal, p), p[i].target, env1, mem))
  {
    SameTargets(coal, p, p[i].target);
    if TargetIn(p, p[i].target).Some? {
      var t := TargetIn(p, p[i].target).value;
      forall v | Current(coal, t, v)
        ensures Get(env1, Canon(coal, v)) == Get(env, v)
      {
        JumpCurrent(p, coal, i, t, v);
      }
    }
  }

  /** A command that writes nothing leaves what is current. */
  lemma QuietNext(p: seq<Cmd>, coal: Coalesced, i: nat, env: Env, env1: Env)
    requires Safe(p, coal) && i < |p| && Outputs(p[i]) == [] && EnvOk(coal, i, env, env1)
    ensures EnvOk(coal, i + 1, env, env1)
  {
    forall v | Current(coal, i + 1, v)
      ensures Get(env1, Canon(coal, v)) == Get(env, v)
    {
      CurrentAfter(p, coal, i, v);
    }
  }

  lemma StepSame(p: seq<Cmd>, I: Interp, coal: Coalesced, c: Config, d: Config)
    requires Safe(p, coal) && Same(coal, c, d)
    ensures Same(coal, Step(p, I, c), Step(Rename(coal, p), I, d))
  {
    if c.At? && c.pc < |p| {
      var At(i, env, mem) := c;
      assert Rename(coal, p)[i] == RenameCmd(coal, p[i]);
      EvalRenamed(p, I, coal, i, env, d.env, mem);
      match p[i] {
        case Op(code, ins, outs) =>
          var (xs, mem1) := ExecOp(I, code, EvalAll(I, env, mem, ins), mem);
          WritesAgree(p, I, coal, i, env, d.env, mem1, xs);
        case Set(out, arg) =>
          assert arg in Inputs(p[i]);
          var x := Eval(I, env, mem, arg);
          WritesAgree(p, I, coal, i, env, d.env, mem, [x]);
          assert RenameAll(coal, [out]) == [RenameOperand(coal, out)];
          assert WriteAll(I, env, mem, [out], [x]) == WriteOne(I, env, mem, out, x);
        case Label(_) =>
          QuietNext(p, coal, i, env, d.env);
        case Jump(l) =>
          GotoSame(p, coal, i, env, d.env, mem);
        case JumpZero(cond, l) =>
          assert cond in Inputs(p[i]);
          GotoSame(p, coal, i, env, d.env, mem);
          QuietNext(p, coal, i, env, d.env);
        case JumpNotZero(cond, l) =>
          assert cond in Inputs(p[i]);
          GotoSame(p, coal, i, env, d.env, mem);
          QuietNext(p, coal, i, env, d.env);
        case Call(fn, args, ret) =>
          var (xs, mem1) := I.call(fn, EvalAll(I, env, mem, args), mem);
          WritesAgree(p, I, coal, i, env, d.env, mem1, xs);
        case Return(result) =>
      }
    }
  }

  lemma SameAtEntry(p: seq<Cmd>, coal: Coalesced, env: Env, mem: Mem)
    requires Safe(p, coal)
    ensures Same(coal, At(0, env, mem), At(0, env, mem))
  {
  }

  /** Copy coalescing preserves meaning whenever chains are safe: after
      any number of steps from function entry the two programs are at the same
      command with the same memory and trace, or have returned the same result. */
  lemma {:induction false} RenamedRunIsSame(p: seq<Cmd>, I: Interp, coal: Coalesced, env: Env, mem: Mem, n: nat)
    requires Safe(p, coal)
    ensures Same(coal, Run(p, I, At(0, env, mem), n), Run(Rename(coal, p), I, At(0, env, mem), n))
  {
    if n == 0 {
      SameAtEntry(p, coal, env, mem);
    } else {
      RenamedRunIsSame(p, I, coal, env, mem, n - 1);
      StepSame(p, I, coal, Run(p, I, At(0, env, mem), n - 1), Run(Rename(coal, p), I, At(0, env, mem), n - 1));
    }
  }

  // ---- why the windows must be clear of the end of the chain ----

  /** A command whose effect depends on all it reads, for some interpretation. */
  predicate Opaque(c: Cmd) {
    c.Call? || (c.Op? && c.code.Other?)
  }

  /** Opaque operations and calls store what they are given. */
  function Telling(): Interp {
    Interp((_: nat, xs: seq<int>, mem: Mem) => ([], Mem(mem.cells, Told(xs))),
           (_: nat, xs: seq<int>, mem: Mem) => ([], Mem(mem.cells, Told(xs))),
           (_: nat, _: Mem) => 0, (_: nat, _: int, mem: Mem) => mem)
  }

  function Told(xs: seq<int>): seq<Access> { seq(|xs|, i requires 0 <= i < |xs| => Store(i, xs[i])) }

  lemma {:induction false} TellingWrites(env: Env, mem: Mem, os: seq<Operand>, xs: seq<int>)
    ensures WriteAll(Telling(), env, mem, os, xs).1 == mem
    decreases |os|
  {
    if os != [] {
      var x := if xs == [] then 0 else xs[0];
      TellingWrites(WriteOne(Telling(), env, mem, os[0], x).0, mem, os[1..], if xs == [] then [] else xs[1..]);
    }
  }

  lemma TellingStep(p: seq<Cmd>, i: nat, env: Env, mem: Mem)
    requires i < |p| && Opaque(p[i])
    ensures Step(p, Telling(), At(i, env, mem)).mem == Mem(mem.cells, Told(EvalAll(Telling(), env, mem, Inputs(p[i]))))
  {
    var xs := EvalAll(Telling(), env, mem, Inputs(p[i]));
    TellingWrites(env, Mem(mem.cells, Told(xs)), Outputs(p[i]), []);
  }

  /** The clear window cannot be done without: where an opaque command inside it
      reads the end of the chain, some interpretation takes two states that agree on
      everything current to different memories. */
  lemma ReadInWindowSeparates(p: seq<Cmd>, coal: Coalesced, t: Value, i: nat, mem: Mem)
    requires t in coal && coal[t].def < i < coal[t].at && i < |p| && Opaque(p[i])
    requires Canon(coal, t) !in coal && Temp(Canon(coal, t)) in Inputs(p[i])
    ensures exists I, env, env1 :: Same(coal, At(i, env, mem), At(i, env1, mem))
                                   && Step(p, I, At(i, env, mem)).mem != Step(Rename(coal, p), I, At(i, env1, mem)).mem
  {
    var x := Canon(coal, t);
    var env, env1: Env := map[x := 1], map[];
    assert Held(coal, i, t) && !Current(coal, i, x);
    var k :| 0 <= k < |Inputs(p[i])| && Inputs(p[i])[k] == Temp(x);
    var q := Rename(coal, p);
    assert q[i] == RenameCmd(coal, p[i]) && Inputs(q[i]) == RenameAll(coal, Inputs(p[i]));
    var xs, ys := EvalAll(Telling(), env, mem, Inputs(p[i])), EvalAll(Telling(), env1, mem, Inputs(q[i]));
    TellingStep(p, i, env, mem);
    TellingStep(q, i, env1, mem);
    assert xs[k] == 1 && ys[k] == 0;
    assert Told(xs)[k] == Store(k, 1) && Told(ys)[k] == Store(k, 0);
    assert Same(coal, At(i, env, mem), At(i, env1, mem));
  }

  // ---- a chain the test accepts although coalescing it changes the program ----

  /** x := 7; t := 1 + 2; y := x + 0; u := t; x := u; return y */
  function ChainExample(): seq<Cmd> {
    var x, t, y, u := Value(0, false), Value(1, false), Value(2, false), Value(3, false);
    [Set(Temp(x), Lit(7)),
     Op(Add, [Lit(1), Lit(2)], [Temp(t)]),
     Op(Add, [Temp(x), Lit(0)], [Temp(y)]),
     Set(Temp(u), Temp(t)),
     Set(Temp(x), Temp(u)),
     Return([Temp(y)])]
  }

  function ChainCopies(): Coalesced {
    var x, t, y, u := Value(0, false), Value(1, false), Value(2, false), Value(3, false);
    map[t := Copy(u, 1, 3), u := Copy(x, 3, 4)]
  }

  lemma ChainUses()
    ensures var p := ChainExample(); var x, t, y, u := Value(0, false), Value(1, false), Value(2, false), Value(3, false);
            seq(|p|, i requires 0 <= i < |p| => Uses(p[i])) == [[], [], [x], [t], [u], [y]]
  {
    var x, t, y, u := Value(0, false), Value(1, false), Value(2, false), Value(3, false);
    var p := ChainExample();
    TempsOf(x, t);
    TempsOf(y, u);
    assert Uses(p[0]) == [] && Uses(p[1]) == [] && Uses(p[2]) == [x];
    assert Uses(p[3]) == [t] && Uses(p[4]) == [u] && Uses(p[5]) == [y];
  }

  lemma ChainDefs()
    ensures var p := ChainExample(); var x, t, y, u := Value(0, false), Value(1, false), Value(2, false), Value(3, false);
            seq(|p|, i requires 0 <= i < |p| => Defs(p[i])) == [[x], [t], [y], [u], [x], []]
  {
    var x, t, y, u := Value(0, false), Value(1, false), Value(2, false), Value(3, false);
    var p := ChainExample();
    TempsOf(x, t);
    TempsOf(y, u);
    assert Defs(p[0]) == [x] && Defs(p[1]) == [t] && Defs(p[2]) == [y];
    assert Defs(p[3]) == [u] && Defs(p[4]) == [x] && Defs(p[5]) == [];
  }

  lemma ChainCounts()
    ensures SingleUseAndDef(ChainExample(), Value(1, false)) && SingleUseAndDef(ChainExample(), Value(3, false))
  {
    var x, t, y, u := Value(0, false), Value(1, false), Value(2, false), Value(3, false);
    ChainUses();
    ChainDefs();
    CountSix([], [], [x], [t], [u], [y], t);
    CountSix([], [], [x], [t], [u], [y], u);
    CountSix([x], [t], [y], [u], [x], [], t);
    CountSix([x], [t], [y], [u], [x], [], u);
  }

  lemma ChainWindows()
    ensures Window(ChainExample(), 1, 3, Value(3, false)) && Window(ChainExample(), 3, 4, Value(0, false))
    ensures Touches(ChainExample()[2], Value(0, false))
  {
    var x, t, u := Value(0, false), Value(1, false), Value(3, false);
    var p := ChainExample();
    assert !Touches(p[1], u) && !Touches(p[2], u) && !Touches(p[3], x);
  }

  lemma ChainAccepted()
    ensures AllAccepted(ChainExample(), ChainCopies())
  {
    var x, t, u := Value(0, false), Value(1, false), Value(3, false);
    var p, coal := ChainExample(), ChainCopies();
    ChainCounts();
    ChainWindows();
    TempsOf(t, u);
    assert coal[t] == Copy(u, 1, 3) && coal[u] == Copy(x, 3, 4);
    assert Accepted(p, t, Copy(u, 1, 3));
    assert Accepted(p, u, Copy(x, 3, 4));
  }

  lemma ChainUnsafe()
    ensures !Safe(ChainExample(), ChainCopies())
  {
    var t := Value(1, false);
    ChainWindows();
    assert Canon(ChainCopies(), t) == Value(0, false);
    assert !LinkSafe(ChainExample(), ChainCopies(), t);
  }

  lemma TempsOf(v: Value, w: Value)
    ensures Temps([Temp(v)]) == [v] && Temps([Temp(w)]) == [w]
    ensures Temps([Temp(v), Lit(0)]) == [v] && Temps([Lit(7)]) == [] && Temps([Lit(1), Lit(2)]) == []
  {
    assert [Temp(v), Lit(0)][1..] == [Lit(0)] && [Lit(1), Lit(2)][1..] == [Lit(2)];
    assert Temps([Lit(0)]) == [] && Temps([Lit(2)]) == [];
  }

  lemma CountSix(a: seq<Value>, b: seq<Value>, c: seq<Value>, d: seq<Value>, e: seq<Value>, f: seq<Value>, v: Value)
    ensures Count([a, b, c, d, e, f], v)
         == multiset(a)[v] + multiset(b)[v] + multiset(c)[v] + multiset(d)[v] + multiset(e)[v] + multiset(f)[v]
  {
    CountSnoc([], a, v);
    CountSnoc([a], b, v);
    CountSnoc([a, b], c, v);
    CountSnoc([a, b, c], d, v);
    CountSnoc([a, b, c, d], e, v);
    CountSnoc([a, b, c, d, e], f, v);
    assert [] + [a] == [a] && [a] + [b] == [a, b] && [a, b] + [c] == [a, b, c];
    assert [a, b, c] + [d] == [a, b, c, d] && [a, b, c, d] + [e] == [a, b, c, d, e];
    assert [a, b, c, d, e] + [f] == [a, b, c, d, e, f];
  }

  lemma CountSnoc(ss: seq<seq<Value>>, s: seq<Value>, v: Value)
    ensures Count(ss + [s], v) == Count(ss, v) + multiset(s)[v]
  {
    assert (ss + [s])[..|ss|] == ss;
  }

  lemma ChainRunsTo7(I: Interp, mem: Mem)
    ensures Run(ChainExample(), I, At(0, map[], mem), 6) == Returned([7], mem)
  {
    var x, t, y, u := Value(0, false), Value(1, false), Value(2, false), Value(3, false);
    var p := ChainExample();
    var e0: Env := map[];
    var e2 := e0[x := 7][t := 3];
    var e3 := e2[y := 7];
    var e5 := e3[u := 3][x := 3];
    StepAdd(p, I, 1, e0[x := 7], mem, Lit(1), Lit(2), t);
    StepAdd(p, I, 2, e2, mem, Temp(x), Lit(0), y);
    RunOne(p, I, e0, mem, 0, At(0, e0, mem));
    RunOne(p, I, e0, mem, 1, At(1, e0[x := 7], mem));
    RunOne(p, I, e0, mem, 2, At(2, e2, mem));
    RunOne(p, I, e0, mem, 3, At(3, e3, mem));
    RunOne(p, I, e0, mem, 4, At(4, e3[u := 3], mem));
    RunOne(p, I, e0, mem, 5, At(5, e5, mem));
    assert EvalAll(I, e5, mem, [Temp(y)]) == [7];
  }

  /** The example renamed: x := 7; x := 1 + 2; y := x + 0; two copies of x onto itself. */
  lemma RenamedExample()
    ensures var x, y := Value(0, false), Value(2, false);
            Rename(ChainCopies(), ChainExample()) ==
            [Set(Temp(x), Lit(7)), Op(Add, [Lit(1), Lit(2)], [Temp(x)]), Op(Add, [Temp(x), Lit(0)], [Temp(y)]),
             Set(Temp(x), Temp(x)), Set(Temp(x), Temp(x)), Return([Temp(y)])]
  {
    var x, t, y, u := Value(0, false), Value(1, false), Value(2, false), Value(3, false);
    var coal := ChainCopies();
    assert Canon(coal, x) == x && Canon(coal, t) == x && Canon(coal, u) == x && Canon(coal, y) == y;
    assert RenameAll(coal, [Lit(1), Lit(2)]) == [Lit(1), Lit(2)];
    assert RenameAll(coal, [Temp(x), Lit(0)]) == [Temp(x), Lit(0)];
    assert RenameAll(coal, [Temp(t)]) == [Temp(x)] && RenameAll(coal, [Temp(y)]) == [Temp(y)];
  }

  lemma RenamedRunsTo3(I: Interp, mem: Mem)
    ensures Run(Rename(ChainCopies(), ChainExample()), I, At(0, map[], mem), 6) == Returned([3], mem)
  {
    RenamedExample();
    var x, y := Value(0, false), Value(2, false);
    var q := Rename(ChainCopies(), ChainExample());
    var e0: Env := map[];
    var e2 := e0[x := 7][x := 3];
    var e3 := e2[y := 3];
    StepAdd(q, I, 1, e0[x := 7], mem, Lit(1), Lit(2), x);
    StepAdd(q, I, 2, e2, mem, Temp(x), Lit(0), y);
    assert e3[x := 3] == e3;
    RunOne(q, I, e0, mem, 0, At(0, e0, mem));
    RunOne(q, I, e0, mem, 1, At(1, e0[x := 7], mem));
    RunOne(q, I, e0, mem, 2, At(2, e2, mem));
    RunOne(q, I, e0, mem, 3, At(3, e3, mem));
    RunOne(q, I, e0, mem, 4, At(4, e3, mem));
    RunOne(q, I, e0, mem, 5, At(5, e3, mem));
    assert EvalAll(I, e3, mem, [Temp(y)]) == [3];
  }

  /** Both copies of the example pass the test one at a time, yet renaming along
      the chain makes it return 3 instead of 7. */
  lemma ChainBreaksMeaning(I: Interp, mem: Mem)
    ensures AllAccepted(ChainExample(), ChainCopies()) && !Safe(ChainExample(), ChainCopies())
    ensures Run(ChainExample(), I, At(0, map[], mem), 6) == Returned([7], mem)
    ensures Run(Rename(ChainCopies(), ChainExample()), I, At(0, map[], mem), 6) == Returned([3], mem)
  {
    ChainAccepted();
    ChainUnsafe();
    ChainRunsTo7(I, mem);
    RenamedRunsTo3(I, mem);
  }

  lemma StepAdd(p: seq<Cmd>, I: Interp, i: nat, env: Env, mem: Mem, a: Operand, b: Operand, v: Value)
    requires i < |p| && p[i] == Op(Add, [a, b], [Temp(v)])
    ensures Step(p, I, At(i, env, mem)) == At(i + 1, env[v := Eval(I, env, mem, a) + Eval(I, env, mem, b)], mem)
  {
    assert EvalAll(I, env, mem, [a, b]) == [Eval(I, env, mem, a), Eval(I, env, mem, b)];
    var sum := Eval(I, env, mem, a) + Eval(I, env, mem, b);
    assert WriteAll(I, env, mem, [Temp(v)], [sum]) == (env[v := sum], mem);
  }

  lemma RunOne(p: seq<Cmd>, I: Interp, env: Env, mem: Mem, n: nat, c: Config)
    requires Run(p, I, At(0, env, mem), n) == c
    ensures Run(p, I, At(0, env, mem), n + 1) == Step(p, I, c)
  {
  }
}
