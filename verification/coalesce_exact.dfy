/** Exactly which chains of copies may be renamed: the condition of the renaming
    theorem is necessary too, where commands show what they read and compute. */
module ExactCoalescing {
  import opened IL
  import opened UseCounts
  import opened CopyCoalescing
  import opened CoalescedRun

  // ---- chains ----

  /** Following `n` copies from `t` leads to `w`. */
  predicate Reaches(coal: Coalesced, t: Value, w: Value, n: nat)
    decreases n
  {
    t in coal && if n == 0 then t == w else Reaches(coal, coal[t].target, w, n - 1)
  }

  lemma {:induction false} ReachesInside(coal: Coalesced, t: Value, w: Value, n: nat)
    requires Reaches(coal, t, w, n)
    ensures w in coal
    decreases n
  {
    if n > 0 {
      ReachesInside(coal, coal[t].target, w, n - 1);
    }
  }

  lemma {:induction false} ReachesNext(coal: Coalesced, t: Value, w: Value, n: nat)
    requires Reaches(coal, t, w, n) && w in coal && coal[w].target in coal
    ensures Reaches(coal, t, coal[w].target, n + 1)
    decreases n
  {
    if n > 0 {
      ReachesNext(coal, coal[t].target, w, n - 1);
    }
  }

  lemma {:induction false} ReachesFrom(coal: Coalesced, t: Value, w: Value, n: nat) returns (prev: Value)
    requires Reaches(coal, t, w, n) && n > 0
    ensures Reaches(coal, t, prev, n - 1) && prev in coal && coal[prev].target == w
    decreases n
  {
    if n == 1 {
      prev := t;
    } else {
      prev := ReachesFrom(coal, coal[t].target, w, n - 1);
    }
  }

  lemma {:induction false} ReachesSplits(coal: Coalesced, t: Value, u: Value, w: Value, m: nat, n: nat)
    requires Reaches(coal, t, u, m) && Reaches(coal, t, w, n) && m <= n
    ensures Reaches(coal, u, w, n - m)
    decreases m
  {
    if m > 0 {
      ReachesSplits(coal, coal[t].target, u, w, m - 1, n - 1);
    }
  }

  /** A later link of a chain starts where an earlier one has ended. */
  lemma {:induction false} ReachesLater(p: seq<Cmd>, coal: Coalesced, t: Value, w: Value, n: nat)
    requires Linked(p, coal) && Reaches(coal, t, w, n)
    ensures w in coal && Canon(coal, w) == Canon(coal, t)
    ensures n > 0 ==> coal[t].at <= coal[w].def
    decreases n
  {
    if n > 0 {
      var next := coal[t].target;
      CanonLink(p, coal, t);
      NextLink(p, coal, t);
      ReachesLater(p, coal, next, w, n - 1);
      assert Accepted(p, next, coal[next]);
    }
  }

  /** `w` is on the chain that starts at `t`. */
  ghost predicate Heir(coal: Coalesced, t: Value, w: Value) {
    exists n: nat :: Reaches(coal, t, w, n)
  }

  /** The links of one chain hold the value one after the other. */
  lemma HeirsInTurn(p: seq<Cmd>, coal: Coalesced, t: Value, u: Value, w: Value)
    requires Linked(p, coal) && Heir(coal, t, u) && Heir(coal, t, w) && u != w
    ensures u in coal && w in coal && (coal[u].at <= coal[w].def || coal[w].at <= coal[u].def)
  {
    var m: nat :| Reaches(coal, t, u, m);
    var n: nat :| Reaches(coal, t, w, n);
    ReachesInside(coal, t, u, m);
    ReachesInside(coal, t, w, n);
    if m <= n {
      ReachesSplits(coal, t, u, w, m, n);
      ReachesLater(p, coal, u, w, n - m);
    } else {
      ReachesSplits(coal, t, w, u, n, m);
      ReachesLater(p, coal, w, u, m - n);
    }
  }

  /** The head of a chain is not itself defined by an accepted copy. */
  ghost predicate Head(p: seq<Cmd>, coal: Coalesced, t: Value) {
    t in coal && forall w :: w in coal ==> coal[w].target != t
  }

  lemma {:induction false} HeadExists(p: seq<Cmd>, coal: Coalesced, u: Value) returns (t: Value)
    requires Linked(p, coal) && u in coal
    ensures Head(p, coal, t) && Heir(coal, t, u) && coal[t].def <= coal[u].def
    decreases coal[u].def
  {
    if w :| w in coal && coal[w].target == u {
      NextLink(p, coal, w);
      assert Accepted(p, w, coal[w]);
      t := HeadExists(p, coal, w);
      var n: nat :| Reaches(coal, t, w, n);
      ReachesNext(coal, t, w, n);
    } else {
      t := u;
      assert Reaches(coal, t, u, 0);
    }
  }

  /** Up to the end of a link its chain is one straight line from the head. */
  lemma {:induction false} StraightFromHead(p: seq<Cmd>, coal: Coalesced, t: Value, u: Value, n: nat, j: nat)
    requires Linked(p, coal) && Reaches(coal, t, u, n) && u in coal && coal[t].def <= j < coal[u].at
    ensures j < |p| && !Breaks(p[j])
    decreases n
  {
    assert Accepted(p, u, coal[u]);
    if n > 0 && j < coal[u].def {
      var prev := ReachesFrom(coal, t, u, n);
      NextLink(p, coal, prev);
      StraightFromHead(p, coal, t, prev, n - 1, j);
    } else if n == 0 {
      assert t == u;
    }
  }

  // ---- one command at a time ----

  /** At most one result, and not into a literal. */
  predicate OneResult(c: Cmd) {
    |Outputs(c)| <= 1 && forall o :: o in Outputs(c) ==> !o.Lit?
  }

  /** A command that copies what it reads, uses it as an address or a stored value, or
      hands it to an opaque operation or call: not one that could cancel it. */
  predicate Shows(c: Cmd) {
    c.Set? || Opaque(c) || (c.Op? && ((c.code == ReadAt && |c.ins| == 1) || (c.code == SetAt && |c.ins| == 2)))
  }

  function First(xs: seq<int>): int { if xs == [] then 0 else xs[0] }

  /** The value a straight-line command computes, and the memory before it is stored. */
  function Effect(I: Interp, c: Cmd, env: Env, mem: Mem): (int, Mem) {
    match c
    case Op(code, ins, _) =>
      var (xs, mem1) := ExecOp(I, code, EvalAll(I, env, mem, ins), mem);
      (First(xs), mem1)
    case Set(_, arg) => (Eval(I, env, mem, arg), mem)
    case Call(fn, args, _) =>
      var (xs, mem1) := I.call(fn, EvalAll(I, env, mem, args), mem);
      (First(xs), mem1)
    case _ => (0, mem)
  }

  function Stored(I: Interp, pc: nat, env: Env, os: seq<Operand>, x: int, mem: Mem): Config {
    if os == [] then At(pc, env, mem)
    else
      var (env1, mem1) := WriteOne(I, env, mem, os[0], x);
      At(pc, env1, mem1)
  }

  lemma StepIs(p: seq<Cmd>, I: Interp, i: nat, env: Env, mem: Mem)
    requires i < |p| && !Breaks(p[i]) && |Outputs(p[i])| <= 1
    ensures var e := Effect(I, p[i], env, mem);
            Step(p, I, At(i, env, mem)) == Stored(I, i + 1, env, Outputs(p[i]), e.0, e.1)
  {
    match p[i] {
      case Op(code, ins, outs) =>
        var (xs, mem1) := ExecOp(I, code, EvalAll(I, env, mem, ins), mem);
        WriteLast(I, env, mem1, outs, xs);
      case Call(fn, args, ret) =>
        var (xs, mem1) := I.call(fn, EvalAll(I, env, mem, args), mem);
        WriteLast(I, env, mem1, ret, xs);
      case _ =>
    }
  }

  lemma WriteLast(I: Interp, env: Env, mem: Mem, os: seq<Operand>, xs: seq<int>)
    requires |os| <= 1
    ensures WriteAll(I, env, mem, os, xs) == if os == [] then (env, mem) else WriteOne(I, env, mem, os[0], First(xs))
  {
    if os != [] {
      assert os[1..] == [];
    }
  }

  // ---- an interpretation that tells ----

  /** Opaque operations and calls record what they are given; the first one run gives
      `v`, the others 0. */
  function Marking(v: int): Interp {
    Interp((_: nat, xs: seq<int>, mem: Mem) => ([if mem.trace == [] then v else 0], Marked(xs, mem)),
           (_: nat, xs: seq<int>, mem: Mem) => ([if mem.trace == [] then v else 0], Marked(xs, mem)),
           (_: nat, _: Mem) => 0, (k: nat, x: int, mem: Mem) => Mem(mem.cells, mem.trace + [Store(k, x)]))
  }

  function Marked(xs: seq<int>, mem: Mem): Mem { Mem(mem.cells, mem.trace + ([Store(0, 0)] + Told(xs))) }

  const NOTHING := Mem(map[], [])

  /** Once something has been recorded the two interpretations do the same. */
  lemma MarkingsAgree(c: Cmd, e0: Env, e1: Env, mem: Mem)
    requires mem.trace != [] && EvalAll(Marking(0), e0, mem, Inputs(c)) == EvalAll(Marking(1), e1, mem, Inputs(c))
    ensures Effect(Marking(0), c, e0, mem) == Effect(Marking(1), c, e1, mem)
    ensures Effect(Marking(0), c, e0, mem).1.trace != []
  {
    if c.Set? {
      assert EvalAll(Marking(0), e0, mem, Inputs(c))[0] == EvalAll(Marking(1), e1, mem, Inputs(c))[0];
    }
  }

  lemma InputsAlike(c: Cmd, e0: Env, e1: Env, mem: Mem)
    requires forall w :: Temp(w) in Inputs(c) ==> Get(e0, w) == Get(e1, w)
    ensures EvalAll(Marking(0), e0, mem, Inputs(c)) == EvalAll(Marking(1), e1, mem, Inputs(c))
  {
  }

  // ---- two runs that differ in the chain's value only ----

  /** What must be so for commands to show what they do: nothing is copied to itself,
      every command has one result at most, chains begin with opaque operations or
      calls, and inside its window a chain's end is read by commands that show it. */
  ghost predicate Telltale(p: seq<Cmd>, coal: Coalesced) {
    && (forall i: nat, v :: i < |p| ==> p[i] != Set(Temp(v), Temp(v)))
    && (forall i: nat :: i < |p| ==> OneResult(p[i]))
    && (forall t :: Head(p, coal, t) && coal[t].def < |p| ==> Opaque(p[coal[t].def]))
    && (forall t, i: nat :: t in coal && coal[t].def < i < coal[t].at && i < |p| && Temp(Canon(coal, t)) in Inputs(p[i]) ==> Shows(p[i]))
  }

  ghost predicate Twins(coal: Coalesced, t: Value, j: nat, e0: Env, e1: Env, mem: Mem) {
    && mem.trace != []
    && (forall w :: !Heir(coal, t, w) ==> Get(e0, w) == Get(e1, w))
    && (forall w :: Heir(coal, t, w) && w in coal && coal[w].def < j ==> Get(e0, w) == 0 && Get(e1, w) == 1)
  }

  lemma OpaqueFirst(p: seq<Cmd>, v: int, d: nat, t: Value)
    requires d < |p| && Opaque(p[d]) && Outputs(p[d]) == [Temp(t)]
    ensures Step(p, Marking(v), At(d, map[], NOTHING))
            == At(d + 1, map[t := v], Marked(EvalAll(Marking(v), map[], NOTHING, Inputs(p[d])), NOTHING))
  {
    StepIs(p, Marking(v), d, map[], NOTHING);
  }

  /** The head's command gives the chain the value that tells the runs apart. */
  lemma TwinsBorn(p: seq<Cmd>, coal: Coalesced, t: Value) returns (e0: Env, e1: Env, mem: Mem)
    requires Linked(p, coal) && Telltale(p, coal) && Head(p, coal, t)
    ensures var d := coal[t].def;
            && Step(p, Marking(0), At(d, map[], NOTHING)) == At(d + 1, e0, mem)
            && Step(p, Marking(1), At(d, map[], NOTHING)) == At(d + 1, e1, mem)
    ensures Twins(coal, t, coal[t].def + 1, e0, e1, mem)
  {
    var d := coal[t].def;
    assert Accepted(p, t, coal[t]) && OneResult(p[d]);
    assert Outputs(p[d]) == [Temp(t)];
    InputsAlike(p[d], map[], map[], NOTHING);
    OpaqueFirst(p, 0, d, t);
    OpaqueFirst(p, 1, d, t);
    e0, e1, mem := map[t := 0], map[t := 1], Marked(EvalAll(Marking(0), map[], NOTHING, Inputs(p[d])), NOTHING);
    TwinsAtBirth(p, coal, t, mem);
  }

  lemma TwinsAtBirth(p: seq<Cmd>, coal: Coalesced, t: Value, mem: Mem)
    requires Linked(p, coal) && t in coal && mem.trace != []
    ensures Twins(coal, t, coal[t].def + 1, map[t := 0], map[t := 1], mem)
  {
    assert Reaches(coal, t, t, 0) && Heir(coal, t, t);
    forall w | Heir(coal, t, w) && w in coal && coal[w].def < coal[t].def + 1
      ensures w == t
    {
      if w != t {
        HeirLater(p, coal, t, w);
      }
    }
  }

  lemma HeirLater(p: seq<Cmd>, coal: Coalesced, t: Value, w: Value)
    requires Linked(p, coal) && Heir(coal, t, w) && w != t
    ensures w in coal && t in coal && coal[t].def < coal[t].at <= coal[w].def
  {
    var n: nat :| Reaches(coal, t, w, n);
    ReachesLater(p, coal, t, w, n);
    assert Accepted(p, t, coal[t]);
  }

  /** Up to the end of `u`'s window an heir is read only to be copied to the next. */
  lemma HeirRead(p: seq<Cmd>, coal: Coalesced, t: Value, u: Value, w: Value, j: nat)
    requires Linked(p, coal) && Heir(coal, t, u) && Heir(coal, t, w) && u in coal && w in coal && j < coal[u].at && j < |p|
    requires Temp(w) in Inputs(p[j])
    ensures j == coal[w].at && p[j] == Set(Temp(coal[w].target), Temp(w))
    ensures coal[w].target in coal && Heir(coal, t, coal[w].target) && coal[coal[w].target].def == j
  {
    assert Accepted(p, w, coal[w]) && Accepted(p, u, coal[u]);
    ReadByItsCopy(p, w, coal[w], j);
    var m: nat :| Reaches(coal, t, u, m);
    var n: nat :| Reaches(coal, t, w, n);
    if m <= n {
      ReachesSplits(coal, t, u, w, m, n);
      ReachesLater(p, coal, u, w, n - m);
      assert false;
    }
    ReachesSplits(coal, t, w, u, n, m);
    assert Reaches(coal, coal[w].target, u, m - n - 1);
    ReachesNext(coal, t, w, n);
    NextLink(p, coal, w);
  }

  /** An heir other than the head is defined by the copy of the one before. */
  lemma HeirDefined(p: seq<Cmd>, coal: Coalesced, t: Value, w: Value) returns (prev: Value)
    requires Linked(p, coal) && Heir(coal, t, w) && w != t && w in coal
    ensures Heir(coal, t, prev) && prev in coal && coal[prev].target == w && coal[prev].at == coal[w].def < |p|
    ensures p[coal[w].def] == Set(Temp(w), Temp(prev)) && Temp(prev) in Inputs(p[coal[w].def])
  {
    var n: nat :| Reaches(coal, t, w, n);
    prev := ReachesFrom(coal, t, w, n);
    NextLink(p, coal, prev);
    assert Accepted(p, prev, coal[prev]);
  }

  lemma TwinsCopy(p: seq<Cmd>, coal: Coalesced, t: Value, u: Value, w: Value, j: nat, e0: Env, e1: Env, mem: Mem)
    requires Linked(p, coal) && Heir(coal, t, u) && u in coal && coal[t].def < j < coal[u].at && t in coal
    requires Heir(coal, t, w) && w in coal && j < |p| && Temp(w) in Inputs(p[j]) && Twins(coal, t, j, e0, e1, mem)
    ensures var y := coal[w].target;
            && p[j] == Set(Temp(y), Temp(w)) && Twins(coal, t, j + 1, e0[y := Get(e0, w)], e1[y := Get(e1, w)], mem)
  {
    HeirRead(p, coal, t, u, w, j);
    var y := coal[w].target;
    assert Accepted(p, w, coal[w]);
    forall z | Heir(coal, t, z) && z in coal && coal[z].def == j
      ensures z == y
    {
      assert Accepted(p, z, coal[z]);
    }
  }

  lemma TwinsOther(p: seq<Cmd>, coal: Coalesced, t: Value, j: nat, e0: Env, e1: Env, mem: Mem)
    requires Linked(p, coal) && t in coal && coal[t].def < j < |p| && OneResult(p[j]) && Twins(coal, t, j, e0, e1, mem)
    requires forall w :: Heir(coal, t, w) ==> Temp(w) !in Inputs(p[j])
    ensures EvalAll(Marking(0), e0, mem, Inputs(p[j])) == EvalAll(Marking(1), e1, mem, Inputs(p[j]))
    ensures forall w :: Heir(coal, t, w) && w in coal ==> Temp(w) !in Outputs(p[j]) && coal[w].def != j
  {
    InputsAlike(p[j], e0, e1, mem);
    forall w | Heir(coal, t, w) && w in coal
      ensures Temp(w) !in Outputs(p[j]) && coal[w].def != j
    {
      assert Accepted(p, w, coal[w]);
      if Temp(w) in Outputs(p[j]) {
        OneDef(p, w, j, coal[w].def);
      }
      if coal[w].def == j {
        var prev := HeirDefined(p, coal, t, w);
        assert false;
      }
    }
  }

  /** The twins stay twins up to the end of `u`'s window. */
  lemma TwinsStep(p: seq<Cmd>, coal: Coalesced, t: Value, u: Value, j: nat, e0: Env, e1: Env, mem: Mem) returns (f0: Env, f1: Env, mem1: Mem)
    requires Linked(p, coal) && Telltale(p, coal) && Heir(coal, t, u) && u in coal && t in coal
    requires coal[t].def < j < coal[u].at && j < |p| && !Breaks(p[j]) && Twins(coal, t, j, e0, e1, mem)
    ensures Step(p, Marking(0), At(j, e0, mem)) == At(j + 1, f0, mem1) && Step(p, Marking(1), At(j, e1, mem)) == At(j + 1, f1, mem1)
    ensures Twins(coal, t, j + 1, f0, f1, mem1)
  {
    assert OneResult(p[j]);
    if w :| Heir(coal, t, w) && Temp(w) in Inputs(p[j]) {
      var n: nat :| Reaches(coal, t, w, n);
      ReachesInside(coal, t, w, n);
      TwinsCopy(p, coal, t, u, w, j, e0, e1, mem);
      f0, f1, mem1 := e0[coal[w].target := Get(e0, w)], e1[coal[w].target := Get(e1, w)], mem;
    } else {
      TwinsOther(p, coal, t, j, e0, e1, mem);
      f0, f1, mem1 := TwinsStored(p, coal, t, j, e0, e1, mem);
    }
  }

  lemma TwinsStored(p: seq<Cmd>, coal: Coalesced, t: Value, j: nat, e0: Env, e1: Env, mem: Mem) returns (f0: Env, f1: Env, mem1: Mem)
    requires j < |p| && !Breaks(p[j]) && OneResult(p[j]) && Twins(coal, t, j, e0, e1, mem)
    requires EvalAll(Marking(0), e0, mem, Inputs(p[j])) == EvalAll(Marking(1), e1, mem, Inputs(p[j]))
    requires forall w :: Heir(coal, t, w) && w in coal ==> Temp(w) !in Outputs(p[j]) && coal[w].def != j
    ensures Step(p, Marking(0), At(j, e0, mem)) == At(j + 1, f0, mem1) && Step(p, Marking(1), At(j, e1, mem)) == At(j + 1, f1, mem1)
    ensures Twins(coal, t, j + 1, f0, f1, mem1)
  {
    MarkingsAgree(p[j], e0, e1, mem);
    StepIs(p, Marking(0), j, e0, mem);
    StepIs(p, Marking(1), j, e1, mem);
    var x, m := Effect(Marking(0), p[j], e0, mem).0, Effect(Marking(0), p[j], e0, mem).1;
    if Outputs(p[j]) == [] {
      f0, f1, mem1 := e0, e1, m;
    } else {
      var o := Outputs(p[j])[0];
      assert Outputs(p[j]) == [o];
      f0, f1 := WriteOne(Marking(0), e0, m, o, x).0, WriteOne(Marking(1), e1, m, o, x).0;
      mem1 := WriteOne(Marking(0), e0, m, o, x).1;
      AfterWrite(coal, t, j, e0, e1, m, o, x);
    }
  }

  lemma AfterWrite(coal: Coalesced, t: Value, j: nat, e0: Env, e1: Env, mem: Mem, o: Operand, x: int)
    requires Twins(coal, t, j, e0, e1, mem) && !o.Lit?
    requires forall w :: Heir(coal, t, w) && w in coal ==> o != Temp(w) && coal[w].def != j
    ensures WriteOne(Marking(0), e0, mem, o, x).1 == WriteOne(Marking(1), e1, mem, o, x).1
    ensures Twins(coal, t, j + 1, WriteOne(Marking(0), e0, mem, o, x).0, WriteOne(Marking(1), e1, mem, o, x).0, WriteOne(Marking(0), e0, mem, o, x).1)
  {
    forall w | Heir(coal, t, w)
      ensures w in coal
    {
      var n: nat :| Reaches(coal, t, w, n);
      ReachesInside(coal, t, w, n);
    }
  }

  // ---- the renaming is right at every step ----

  /** The two programs, started at `j` in one state that a renamed run could be in,
      stay together for `n` steps. */
  ghost predicate RightRun(p: seq<Cmd>, coal: Coalesced, I: Interp, j: nat, env: Env, mem: Mem, n: nat) {
    Same(coal, At(j, env, mem), At(j, env, mem)) ==>
      Same(coal, Run(p, I, At(j, env, mem), n), Run(Rename(coal, p), I, At(j, env, mem), n))
  }

  /** For every interpretation, and wherever they start. */
  ghost predicate Right(p: seq<Cmd>, coal: Coalesced) {
    forall I, j: nat, env, mem, n: nat :: RightRun(p, coal, I, j, env, mem, n)
  }

  lemma {:induction false} SafeStaysTogether(p: seq<Cmd>, coal: Coalesced, I: Interp, j: nat, env: Env, mem: Mem, n: nat)
    requires Safe(p, coal)
    ensures RightRun(p, coal, I, j, env, mem, n)
  {
    if n > 0 {
      SafeStaysTogether(p, coal, I, j, env, mem, n - 1);
      if Same(coal, At(j, env, mem), At(j, env, mem)) {
        StepSame(p, I, coal, Run(p, I, At(j, env, mem), n - 1), Run(Rename(coal, p), I, At(j, env, mem), n - 1));
      }
    }
  }

  // ---- facing a command inside a window ----

  /** The twins and their renamed counterparts in front of command `i`, inside the
      window of `u`, and together after it. */
  ghost predicate Facing(p: seq<Cmd>, coal: Coalesced, t: Value, u: Value, i: nat, e0: Env, e1: Env, f0: Env, f1: Env, mem: Mem) {
    && Heir(coal, t, u) && t in coal && u in coal && coal[u].def < i < coal[u].at && coal[t].def < i < |p|
    && Twins(coal, t, i, e0, e1, mem) && EnvOk(coal, i, e0, f0) && EnvOk(coal, i, e1, f1)
    && Same(coal, Step(p, Marking(0), At(i, e0, mem)), Step(Rename(coal, p), Marking(0), At(i, f0, mem)))
    && Same(coal, Step(p, Marking(1), At(i, e1, mem)), Step(Rename(coal, p), Marking(1), At(i, f1, mem)))
  }

  /** `n` steps from the head's command the twins are at the same command. */
  ghost predicate TwinsAfter(p: seq<Cmd>, coal: Coalesced, t: Value, n: nat, e0: Env, e1: Env, mem: Mem)
    requires t in coal
  {
    var d := coal[t].def;
    && Run(p, Marking(0), At(d, map[], NOTHING), n) == At(d + n, e0, mem)
    && Run(p, Marking(1), At(d, map[], NOTHING), n) == At(d + n, e1, mem)
    && Twins(coal, t, d + n, e0, e1, mem)
  }

  lemma TwinsFirst(p: seq<Cmd>, coal: Coalesced, t: Value) returns (e0: Env, e1: Env, mem: Mem)
    requires Linked(p, coal) && Telltale(p, coal) && Head(p, coal, t)
    ensures TwinsAfter(p, coal, t, 1, e0, e1, mem)
  {
    e0, e1, mem := TwinsBorn(p, coal, t);
    StepOnce(p, Marking(0), map[], NOTHING, coal[t].def);
    StepOnce(p, Marking(1), map[], NOTHING, coal[t].def);
  }

  lemma TwinsNext(p: seq<Cmd>, coal: Coalesced, t: Value, u: Value, n: nat, e0: Env, e1: Env, mem: Mem) returns (f0: Env, f1: Env, mem1: Mem)
    requires Linked(p, coal) && Telltale(p, coal) && Heir(coal, t, u) && u in coal && t in coal
    requires 0 < n && coal[t].def + n < coal[u].at && TwinsAfter(p, coal, t, n, e0, e1, mem)
    ensures TwinsAfter(p, coal, t, n + 1, f0, f1, mem1)
  {
    var m: nat :| Reaches(coal, t, u, m);
    StraightFromHead(p, coal, t, u, m, coal[t].def + n);
    f0, f1, mem1 := TwinsStep(p, coal, t, u, coal[t].def + n, e0, e1, mem);
  }

  lemma {:induction false} TwinRuns(p: seq<Cmd>, coal: Coalesced, t: Value, u: Value, n: nat) returns (e0: Env, e1: Env, mem: Mem)
    requires Linked(p, coal) && Telltale(p, coal) && Head(p, coal, t) && Heir(coal, t, u) && u in coal
    requires 0 < n && coal[t].def + n <= coal[u].at
    ensures TwinsAfter(p, coal, t, n, e0, e1, mem)
    decreases n
  {
    if n == 1 {
      e0, e1, mem := TwinsFirst(p, coal, t);
    } else {
      e0, e1, mem := TwinRuns(p, coal, t, u, n - 1);
      e0, e1, mem := TwinsNext(p, coal, t, u, n - 1, e0, e1, mem);
    }
  }

  lemma StepOnce(p: seq<Cmd>, I: Interp, env: Env, mem: Mem, d: nat)
    ensures Run(p, I, At(d, env, mem), 1) == Step(p, I, At(d, env, mem))
  {
    assert Run(p, I, At(d, env, mem), 0) == At(d, env, mem);
  }

  /** Where right runs are when the original one is at `At(i, e, mem)`. */
  lemma Together(p: seq<Cmd>, coal: Coalesced, I: Interp, d: nat, n: nat, i: nat, e: Env, mem: Mem) returns (f: Env)
    requires Right(p, coal) && Run(p, I, At(d, map[], NOTHING), n) == At(i, e, mem)
    ensures EnvOk(coal, i, e, f)
    ensures Same(coal, Step(p, I, At(i, e, mem)), Step(Rename(coal, p), I, At(i, f, mem)))
  {
    assert RightRun(p, coal, I, d, map[], NOTHING, n);
    assert RightRun(p, coal, I, d, map[], NOTHING, n + 1);
    var r := Run(Rename(coal, p), I, At(d, map[], NOTHING), n);
    f := r.env;
    assert r == At(i, f, mem);
  }

  lemma FaceOff(p: seq<Cmd>, coal: Coalesced, u: Value, i: nat) returns (t: Value, e0: Env, e1: Env, f0: Env, f1: Env, mem: Mem)
    requires Linked(p, coal) && Telltale(p, coal) && Right(p, coal) && u in coal && coal[u].def < i < coal[u].at
    ensures Facing(p, coal, t, u, i, e0, e1, f0, f1, mem)
  {
    t := HeadExists(p, coal, u);
    assert Accepted(p, u, coal[u]);
    var n := i - coal[t].def;
    e0, e1, mem := TwinRuns(p, coal, t, u, n);
    f0 := Together(p, coal, Marking(0), coal[t].def, n, i, e0, mem);
    f1 := Together(p, coal, Marking(1), coal[t].def, n, i, e1, mem);
  }

  // ---- writing the end of a chain inside a window ----

  /** What a renamed command that does not read the end of the chain reads is the
      same for both twins. */
  lemma RenamedAlike(p: seq<Cmd>, coal: Coalesced, t: Value, u: Value, i: nat, e0: Env, e1: Env, f0: Env, f1: Env, mem: Mem, w: Value)
    requires Linked(p, coal) && Facing(p, coal, t, u, i, e0, e1, f0, f1, mem)
    requires Temp(w) in Inputs(p[i]) && w != Canon(coal, u) && Outputs(p[i]) == [Temp(Canon(coal, u))]
    ensures Get(f0, Canon(coal, w)) == Get(f1, Canon(coal, w))
  {
    CanonIsLast(p, coal, u);
    if w in coal {
      assert Accepted(p, w, coal[w]);
      ReadByItsCopy(p, w, coal[w], i);
      if Heir(coal, t, w) {
        HeirRead(p, coal, t, u, w, i);
        assert false;
      }
    } else if !Current(coal, i, w) {
      var h :| h in coal && Canon(coal, h) == w && Held(coal, i, h);
      if Heir(coal, t, h) {
        SameEnd(p, coal, t, u, h);
        assert false;
      }
      assert Current(coal, i, h);
    } else {
      HeirsCoalesced(coal, t, w);
    }
  }

  lemma HeirsCoalesced(coal: Coalesced, t: Value, w: Value)
    requires w !in coal
    ensures !Heir(coal, t, w)
  {
    if n: nat :| Reaches(coal, t, w, n) {
      ReachesInside(coal, t, w, n);
      assert false;
    }
  }

  lemma SameEnd(p: seq<Cmd>, coal: Coalesced, t: Value, u: Value, h: Value)
    requires Linked(p, coal) && Heir(coal, t, u) && Heir(coal, t, h)
    ensures Canon(coal, u) == Canon(coal, h)
  {
    var m: nat :| Reaches(coal, t, u, m);
    var n: nat :| Reaches(coal, t, h, n);
    ReachesLater(p, coal, t, u, m);
    ReachesLater(p, coal, t, h, n);
  }

  lemma WriteShows(p: seq<Cmd>, coal: Coalesced, t: Value, u: Value, i: nat, e0: Env, e1: Env, f0: Env, f1: Env, mem: Mem)
    requires Linked(p, coal) && Telltale(p, coal) && i < |p| && u in coal && !Breaks(p[i])
    requires Outputs(p[i]) == [Temp(Canon(coal, u))] && Temp(Canon(coal, u)) !in Inputs(p[i])
    ensures !Facing(p, coal, t, u, i, e0, e1, f0, f1, mem)
  {
    if Facing(p, coal, t, u, i, e0, e1, f0, f1, mem) {
      var x, q := Canon(coal, u), Rename(coal, p);
      CanonIsLast(p, coal, u);
      forall w | Temp(w) in Inputs(p[i])
        ensures Get(f0, Canon(coal, w)) == Get(f1, Canon(coal, w))
      {
        RenamedAlike(p, coal, t, u, i, e0, e1, f0, f1, mem, w);
      }
      RenamedParts(p, coal, i);
      InputsAlike(q[i], f0, f1, mem);
      MarkingsAgree(q[i], f0, f1, mem);
      WriteStep(p, coal, u, 0, i, e0, f0, mem);
      WriteStep(p, coal, u, 1, i, e1, f1, mem);
      assert false;
    }
  }

  lemma RenamedParts(p: seq<Cmd>, coal: Coalesced, i: nat)
    requires i < |p|
    ensures var c, r := p[i], Rename(coal, p)[i];
            && r == RenameCmd(coal, c) && (Breaks(r) <==> Breaks(c))
            && Inputs(r) == RenameAll(coal, Inputs(c)) && Outputs(r) == RenameAll(coal, Outputs(c))
    ensures forall z :: Temp(z) in Inputs(Rename(coal, p)[i]) ==> exists w :: Temp(w) in Inputs(p[i]) && Canon(coal, w) == z
  {
    forall z | Temp(z) in Inputs(Rename(coal, p)[i])
      ensures exists w :: Temp(w) in Inputs(p[i]) && Canon(coal, w) == z
    {
      var k :| 0 <= k < |Inputs(p[i])| && RenameOperand(coal, Inputs(p[i])[k]) == Temp(z);
      assert Inputs(p[i])[k] in Inputs(p[i]);
    }
  }

  /** After the write the renamed program finds the written value where `u` should be. */
  lemma WriteStep(p: seq<Cmd>, coal: Coalesced, u: Value, v: int, i: nat, e: Env, f: Env, mem: Mem)
    requires Linked(p, coal) && i < |p| && !Breaks(p[i]) && u in coal && coal[u].def < i < coal[u].at
    requires Outputs(p[i]) == [Temp(Canon(coal, u))] && Canon(coal, u) !in coal
    requires Same(coal, Step(p, Marking(v), At(i, e, mem)), Step(Rename(coal, p), Marking(v), At(i, f, mem)))
    ensures Effect(Marking(v), Rename(coal, p)[i], f, mem).0 == Get(e, u)
  {
    RenamedParts(p, coal, i);
    var x := Canon(coal, u);
    assert Outputs(Rename(coal, p)[i]) == [Temp(x)];
    StepIs(p, Marking(v), i, e, mem);
    StepIs(Rename(coal, p), Marking(v), i, f, mem);
    assert Held(coal, i + 1, u) && Current(coal, i + 1, u);
  }

  // ---- reading the end of a chain inside a window ----

  lemma LongerTracesDiffer(a: seq<Access>, b: seq<Access>, c: seq<Access>, d: seq<Access>, n: nat)
    requires |a| == |b| && n < |a| && a[n] != b[n]
    ensures a + c != b + d
  {
    assert (a + c)[n] == a[n] && (b + d)[n] == b[n];
  }

  /** The two traces differ already at an access both have made. */
  ghost predicate TracesPart(a: Mem, b: Mem) {
    exists n: nat :: PartAt(a.trace, b.trace, n)
  }

  ghost predicate PartAt(a: seq<Access>, b: seq<Access>, n: nat) {
    n < |a| && n < |b| && a[n] != b[n]
  }

  lemma PartedStay(v: int, pc: nat, e: Env, f: Env, os: seq<Operand>, ps: seq<Operand>, x: int, y: int, a: Mem, b: Mem)
    requires TracesPart(a, b) && |os| <= 1 && |ps| <= 1
    ensures Stored(Marking(v), pc, e, os, x, a).mem != Stored(Marking(v), pc, f, ps, y, b).mem
  {
    var n: nat :| PartAt(a.trace, b.trace, n);
    var r, s := Stored(Marking(v), pc, e, os, x, a).mem.trace, Stored(Marking(v), pc, f, ps, y, b).mem.trace;
    assert r[n] == a.trace[n] && s[n] == b.trace[n];
  }

  /** A command that shows what it reads, other than a copy, leaves different traces
      when what it reads at `k` is different. */
  lemma EffectsPart(v: int, c: Cmd, d: Cmd, e: Env, f: Env, mem: Mem, k: nat)
    requires Shows(c) && !c.Set? && k < |Inputs(c)| == |Inputs(d)|
    requires (c.Op? && d.Op? && c.code == d.code) || (c.Call? && d.Call? && c.fn == d.fn)
    requires Eval(Marking(v), e, mem, Inputs(c)[k]) != Eval(Marking(v), f, mem, Inputs(d)[k])
    ensures TracesPart(Effect(Marking(v), c, e, mem).1, Effect(Marking(v), d, f, mem).1)
  {
    var xs, ys := EvalAll(Marking(v), e, mem, Inputs(c)), EvalAll(Marking(v), f, mem, Inputs(d));
    assert xs[k] != ys[k];
    var a, b := Effect(Marking(v), c, e, mem).1.trace, Effect(Marking(v), d, f, mem).1.trace;
    if Opaque(c) {
      MarkedParts(xs, ys, mem, k);
    } else {
      assert PartAt(a, b, |mem.trace|);
    }
  }

  lemma MarkedParts(xs: seq<int>, ys: seq<int>, mem: Mem, k: nat)
    requires k < |xs| == |ys| && xs[k] != ys[k]
    ensures TracesPart(Marked(xs, mem), Marked(ys, mem))
  {
    assert PartAt(Marked(xs, mem).trace, Marked(ys, mem).trace, |mem.trace| + 1 + k);
  }

  /** Where the chain's value and its end's own differ, a command that reads the end
      and is no copy is caught at once. */
  lemma ReadStep(p: seq<Cmd>, coal: Coalesced, x: Value, v: int, i: nat, e: Env, f: Env, mem: Mem)
    requires i < |p| && !Breaks(p[i]) && OneResult(p[i]) && Shows(p[i]) && !p[i].Set?
    requires Temp(x) in Inputs(p[i]) && x !in coal && Get(e, x) != Get(f, x)
    ensures !Same(coal, Step(p, Marking(v), At(i, e, mem)), Step(Rename(coal, p), Marking(v), At(i, f, mem)))
  {
    var q := Rename(coal, p);
    RenamedParts(p, coal, i);
    var k :| 0 <= k < |Inputs(p[i])| && Inputs(p[i])[k] == Temp(x);
    assert Inputs(q[i])[k] == Temp(x);
    EffectsPart(v, p[i], q[i], e, f, mem, k);
    StepIs(p, Marking(v), i, e, mem);
    StepIs(q, Marking(v), i, f, mem);
    var a, b := Effect(Marking(v), p[i], e, mem), Effect(Marking(v), q[i], f, mem);
    PartedStay(v, i + 1, e, f, Outputs(p[i]), Outputs(q[i]), a.0, b.0, a.1, b.1);
  }

  /** So is a copy of it into memory, or into a value that is current afterwards. */
  lemma CopyStep(p: seq<Cmd>, coal: Coalesced, x: Value, v: int, i: nat, e: Env, f: Env, mem: Mem)
    requires i < |p| && p[i].Set? && OneResult(p[i]) && p[i].arg == Temp(x) && x !in coal && Get(e, x) != Get(f, x)
    requires p[i].out.Temp? ==> Current(coal, i + 1, p[i].out.v)
    ensures !Same(coal, Step(p, Marking(v), At(i, e, mem)), Step(Rename(coal, p), Marking(v), At(i, f, mem)))
  {
    var q := Rename(coal, p);
    assert q[i] == Set(RenameOperand(coal, p[i].out), Temp(x));
    assert p[i].out in Outputs(p[i]);
    if p[i].out.Pinned? {
      var r, s := Step(p, Marking(v), At(i, e, mem)).mem.trace, Step(q, Marking(v), At(i, f, mem)).mem.trace;
      assert r[|mem.trace|] != s[|mem.trace|];
    }
  }

  lemma InWindow(p: seq<Cmd>, coal: Coalesced, u: Value, i: nat)
    requires Linked(p, coal) && Telltale(p, coal) && u in coal && coal[u].def < i < coal[u].at && i < |p|
    ensures OneResult(p[i]) && !Breaks(p[i])
  {
    assert Accepted(p, u, coal[u]);
  }

  lemma OnlyOutput(c: Cmd, x: Value)
    requires OneResult(c) && Temp(x) in Outputs(c)
    ensures Outputs(c) == [Temp(x)]
  {
  }

  /** A window in which the end of the chain is written, but not read, is not right. */
  lemma WriteIsWrong(p: seq<Cmd>, coal: Coalesced, u: Value, i: nat)
    requires Linked(p, coal) && Telltale(p, coal) && u in coal && coal[u].def < i < coal[u].at
    requires i < |p| && Temp(Canon(coal, u)) in Outputs(p[i]) && Temp(Canon(coal, u)) !in Inputs(p[i])
    ensures !Right(p, coal)
  {
    InWindow(p, coal, u, i);
    OnlyOutput(p[i], Canon(coal, u));
    if Right(p, coal) {
      var t, e0, e1, f0, f1, mem := FaceOff(p, coal, u, i);
      WriteShows(p, coal, t, u, i, e0, e1, f0, f1, mem);
      assert false;
    }
  }

  /** Nor is one in which it is read. */
  lemma ReadIsWrong(p: seq<Cmd>, coal: Coalesced, u: Value, i: nat)
    requires Linked(p, coal) && Telltale(p, coal) && u in coal && coal[u].def < i < coal[u].at
    requires i < |p| && Temp(Canon(coal, u)) in Inputs(p[i])
    ensures !Right(p, coal)
  {
    InWindow(p, coal, u, i);
    assert Shows(p[i]);
    CanonIsLast(p, coal, u);
    var x := Canon(coal, u);
    if p[i].Set? && p[i].out.Temp? && !Current(coal, i + 1, p[i].out.v) {
      assert p[i] == Set(Temp(p[i].out.v), Temp(x));
      var h := OtherWindow(p, coal, p[i].out.v, i);
      WriteIsWrong(p, coal, h, i);
    } else if Right(p, coal) {
      var t, e0, e1, f0, f1, mem := FaceOff(p, coal, u, i);
      ReadShows(p, coal, t, u, i, e0, e1, f0, f1, mem);
      assert false;
    }
  }

  /** A value that is not current after it has been written ends a chain whose window is open. */
  lemma OtherWindow(p: seq<Cmd>, coal: Coalesced, y: Value, i: nat) returns (h: Value)
    requires Linked(p, coal) && i < |p| && Outputs(p[i]) == [Temp(y)] && !Current(coal, i + 1, y)
    ensures h in coal && Canon(coal, h) == y && coal[h].def < i < coal[h].at
  {
    if y in coal {
      assert Accepted(p, y, coal[y]);
      OneDef(p, y, i, coal[y].def);
      assert false;
    }
    h :| h in coal && Canon(coal, h) == y && Held(coal, i + 1, h);
    assert Accepted(p, h, coal[h]);
    assert Temp(h) in Outputs(p[coal[h].def]);
    assert coal[h].at != i ==> coal[h].def < i < coal[h].at;
  }

  lemma ReadShows(p: seq<Cmd>, coal: Coalesced, t: Value, u: Value, i: nat, e0: Env, e1: Env, f0: Env, f1: Env, mem: Mem)
    requires Linked(p, coal) && i < |p| && u in coal && !Breaks(p[i]) && OneResult(p[i]) && Shows(p[i]) && Canon(coal, u) !in coal
    requires Temp(Canon(coal, u)) in Inputs(p[i])
    requires p[i].Set? && p[i].out.Temp? ==> Current(coal, i + 1, p[i].out.v)
    ensures !Facing(p, coal, t, u, i, e0, e1, f0, f1, mem)
  {
    if Facing(p, coal, t, u, i, e0, e1, f0, f1, mem) {
      var x := Canon(coal, u);
      HeirsCoalesced(coal, t, x);
      assert Current(coal, i, u);
      assert Get(f0, x) == 0 && Get(f1, x) == 1 && Get(e0, x) == Get(e1, x);
      if p[i].Set? {
        if Get(e0, x) == 0 { CopyStep(p, coal, x, 1, i, e1, f1, mem); } else { CopyStep(p, coal, x, 0, i, e0, f0, mem); }
      } else {
        if Get(e0, x) == 0 { ReadStep(p, coal, x, 1, i, e1, f1, mem); } else { ReadStep(p, coal, x, 0, i, e0, f0, mem); }
      }
      assert false;
    }
  }

  // ---- the exact condition ----

  /** Renaming is right, at every step and for every interpretation, if and only if
      every window is clear of the end of its chain; for programs whose commands show
      what they read and compute. */
  lemma SafeIsExact(p: seq<Cmd>, coal: Coalesced)
    requires AllAccepted(p, coal) && Telltale(p, coal)
    ensures Right(p, coal) <==> Safe(p, coal)
  {
    AcceptedIsLinked(p, coal);
    if Safe(p, coal) {
      forall I, j: nat, env, mem, n: nat
        ensures RightRun(p, coal, I, j, env, mem, n)
      {
        SafeStaysTogether(p, coal, I, j, env, mem, n);
      }
    } else {
      var u :| u in coal && !LinkSafe(p, coal, u);
      UnsafeIsWrong(p, coal, u);
    }
  }

  lemma AcceptedIsLinked(p: seq<Cmd>, coal: Coalesced)
    requires AllAccepted(p, coal) && forall i: nat, v :: i < |p| ==> p[i] != Set(Temp(v), Temp(v))
    ensures Linked(p, coal)
  {
    forall t | t in coal
      ensures Accepted(p, t, coal[t]) && coal[t].def < coal[t].at
    {
      var c := coal[t];
      assert Accepted(p, t, c);
      assert p[c.at] == Set(Temp(c.target), Temp(t));
      WindowNonempty(p, t, c);
    }
  }

  lemma UnsafeIsWrong(p: seq<Cmd>, coal: Coalesced, u: Value)
    requires Linked(p, coal) && Telltale(p, coal) && u in coal && !LinkSafe(p, coal, u)
    ensures !Right(p, coal)
  {
    var c, x := coal[u], Canon(coal, u);
    assert Accepted(p, u, c) && OneResult(p[c.def]);
    CanonIsLast(p, coal, u);
    assert Temp(u) in Outputs(p[c.def]);
    var i :| c.def < i < c.at && Touches(p[i], x);
    if Temp(x) in Inputs(p[i]) {
      ReadIsWrong(p, coal, u, i);
    } else {
      WriteIsWrong(p, coal, u, i);
    }
  }
}
