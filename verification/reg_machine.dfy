/** The machine that register-allocated code runs on, and the proof that it
    simulates the IL.

    Storage is a map from locations (two register files and 8-byte frame slots)
    to contents.  A call first moves its arguments into the argument registers
    one after another, and leaves every caller-saved register with an arbitrary
    content. */
module RegMachine {
  import opened IL
  import opened Liveness

  datatype Loc = IntReg(n: nat) | FpReg(n: nat) | Slot(off: nat)

  type Cells = map<Loc, int>
  type Homes = map<Value, Loc>

  datatype MConfig =
    | MAt(pc: nat, cells: Cells, mem: Mem)
    | MReturned(result: seq<int>, cells: Cells, mem: Mem)
    | MFellOff(mem: Mem)
    | MNoTarget(mem: Mem)

  function MEval(I: Interp, home: Homes, cells: Cells, mem: Mem, o: Operand): int {
    match o
    case Temp(v) => if v in home then Get(cells, home[v]) else 0
    case Lit(n) => n
    case Pinned(k) => I.load(k, mem)
  }

  function MEvalAll(I: Interp, home: Homes, cells: Cells, mem: Mem, os: seq<Operand>): (r: seq<int>)
    ensures |r| == |os|
  {
    seq(|os|, i requires 0 <= i < |os| => MEval(I, home, cells, mem, os[i]))
  }

  function MWriteOne(I: Interp, home: Homes, cells: Cells, mem: Mem, o: Operand, x: int): (Cells, Mem) {
    match o
    case Temp(v) => (if v in home then cells[home[v] := x] else cells, mem)
    case Lit(_) => (cells, mem)
    case Pinned(k) => (cells, I.store(k, x, mem))
  }

  function MWriteAll(I: Interp, home: Homes, cells: Cells, mem: Mem, os: seq<Operand>, xs: seq<int>): (Cells, Mem)
    decreases |os|
  {
    if os == [] then (cells, mem)
    else
      var (cells1, mem1) := MWriteOne(I, home, cells, mem, os[0], if xs == [] then 0 else xs[0]);
      MWriteAll(I, home, cells1, mem1, os[1..], if xs == [] then [] else xs[1..])
  }

  predicate IsFp(o: Operand) { o.Temp? && o.v.floating }

  /** Integer and floating arguments number their registers separately. */
  function ArgLocs(args: seq<Operand>, gp: nat, fp: nat): (r: seq<Loc>)
    ensures |r| == |args|
    decreases |args|
  {
    if args == [] then []
    else if IsFp(args[0]) then [FpReg(fp)] + ArgLocs(args[1..], gp, fp + 1)
    else [IntReg(gp)] + ArgLocs(args[1..], gp + 1, fp)
  }

  /** Move each argument from its home into its register, left to right: a later
      move sees what the earlier ones overwrote. */
  function Marshal(I: Interp, home: Homes, cells: Cells, mem: Mem, args: seq<Operand>, locs: seq<Loc>): Cells
    requires |args| == |locs|
    decreases |args|
  {
    if args == [] then cells
    else Marshal(I, home, cells[locs[0] := MEval(I, home, cells, mem, args[0])], mem, args[1..], locs[1..])
  }

  function ReadAll(cells: Cells, locs: seq<Loc>): seq<int> {
    seq(|locs|, i requires 0 <= i < |locs| => Get(cells, locs[i]))
  }

  function Clobber(cells: Cells, clobbered: set<Loc>, junk: Loc -> int): Cells {
    cells + map l | l in clobbered :: junk(l)
  }

  function MGoto(p: seq<Cmd>, l: nat, cells: Cells, mem: Mem): MConfig {
    match TargetIn(p, l)
    case Some(t) => MAt(t, cells, mem)
    case None => MNoTarget(mem)
  }

  function MStep(p: seq<Cmd>, I: Interp, home: Homes, clobbered: set<Loc>, c: MConfig, junk: Loc -> int): MConfig {
    if !c.MAt? then c
    else if c.pc >= |p| then MFellOff(c.mem)
    else
      var MAt(pc, cells, mem) := c;
      match p[pc]
      case Op(code, ins, outs) =>
        var (xs, mem1) := ExecOp(I, code, MEvalAll(I, home, cells, mem, ins), mem);
        var (cells2, mem2) := MWriteAll(I, home, cells, mem1, outs, xs);
        MAt(pc + 1, cells2, mem2)
      case Set(out, arg) =>
        // a copy of a value onto itself emits no code
        if out.Temp? && out == arg then MAt(pc + 1, cells, mem)
        else
          var (cells1, mem1) := MWriteOne(I, home, cells, mem, out, MEval(I, home, cells, mem, arg));
          MAt(pc + 1, cells1, mem1)
      case Label(_) => MAt(pc + 1, cells, mem)
      case Jump(l) => MGoto(p, l, cells, mem)
      case JumpZero(cond, l) =>
        if MEval(I, home, cells, mem, cond) == 0 then MGoto(p, l, cells, mem) else MAt(pc + 1, cells, mem)
      case JumpNotZero(cond, l) =>
        if MEval(I, home, cells, mem, cond) != 0 then MGoto(p, l, cells, mem) else MAt(pc + 1, cells, mem)
      case Call(fn, args, ret) =>
        var locs := ArgLocs(args, 0, 0);
        var moved := Marshal(I, home, cells, mem, args, locs);
        var (xs, mem1) := I.call(fn, ReadAll(moved, locs), mem);
        var (cells2, mem2) := MWriteAll(I, home, Clobber(moved, clobbered, junk), mem1, ret, xs);
        MAt(pc + 1, cells2, mem2)
      case Return(result) => MReturned(MEvalAll(I, home, cells, mem, result), cells, mem)
  }

  /** `n` steps; step `k` leaves `junk(k, l)` in each clobbered location `l`. */
  function MRun(p: seq<Cmd>, I: Interp, home: Homes, clobbered: set<Loc>, c: MConfig, junk: (nat, Loc) -> int, n: nat): MConfig {
    if n == 0 then c
    else MStep(p, I, home, clobbered, MRun(p, I, home, clobbered, c, junk, n - 1), l => junk(n - 1, l))
  }

  // ---- when an assignment of homes is good ----

  ghost predicate LiveTables(p: seq<Cmd>, liveIn: Live, liveOut: Live) {
    |liveIn| == |p| && |liveOut| == |p|
  }

  /** Everything present at a command has a home. */
  ghost predicate Housed(p: seq<Cmd>, liveIn: Live, liveOut: Live, home: Homes)
    requires LiveTables(p, liveIn, liveOut)
  {
    forall i, v :: 0 <= i < |p| && (v in liveIn[i] || v in liveOut[i] || v in Defs(p[i])) ==> v in home
  }

  /** A definition overwrites no other value needed afterwards. */
  ghost predicate NoClash(home: Homes, defs: seq<Value>, keep: set<Value>) {
    forall d, w :: d in defs && w in keep && d != w && d in home && w in home ==> home[d] != home[w]
  }

  ghost predicate CallSafe(c: Cmd, liveIn: set<Value>, liveOut: set<Value>, home: Homes, clobbered: set<Loc>)
    requires c.Call?
  {
    // a value live across the call survives it
    && (forall v :: v in liveIn && v in liveOut && v in home ==> home[v] !in clobbered)
    // no home is an argument register of this call
    && (forall v, l :: v in home && l in ArgLocs(c.args, 0, 0) ==> home[v] != l)
  }

  ghost predicate GoodHomes(p: seq<Cmd>, liveIn: Live, liveOut: Live, home: Homes, clobbered: set<Loc>) {
    && LiveTables(p, liveIn, liveOut)
    && Housed(p, liveIn, liveOut, home)
    && (forall i :: 0 <= i < |p| ==> NoClash(home, Defs(p[i]), liveOut[i] + Elems(Defs(p[i]))))
    && (forall i :: 0 <= i < |p| && p[i].Call? ==> CallSafe(p[i], liveIn[i], liveOut[i], home, clobbered))
  }

  // ---- the simulation ----

  ghost predicate Agree(home: Homes, live: set<Value>, env: Env, cells: Cells) {
    forall v :: v in live ==> v in home && Get(cells, home[v]) == Get(env, v)
  }

  ghost predicate Related(p: seq<Cmd>, liveIn: Live, home: Homes, c: Config, m: MConfig)
    requires |liveIn| == |p|
  {
    match c
    case At(pc, env, mem) =>
      m.MAt? && m.pc == pc && m.mem == mem && (pc < |p| ==> Agree(home, liveIn[pc], env, m.cells))
    case Returned(result, mem) => m.MReturned? && m.result == result && m.mem == mem
    case FellOff(mem) => m == MFellOff(mem)
    case NoTarget(mem) => m == MNoTarget(mem)
  }

  lemma EvalAgrees(I: Interp, home: Homes, live: set<Value>, env: Env, cells: Cells, mem: Mem, os: seq<Operand>)
    requires Agree(home, live, env, cells)
    requires forall v :: Temp(v) in os ==> v in live
    ensures MEvalAll(I, home, cells, mem, os) == EvalAll(I, env, mem, os)
    ensures forall o :: o in os ==> MEval(I, home, cells, mem, o) == Eval(I, env, mem, o)
  {
    forall o | o in os
      ensures MEval(I, home, cells, mem, o) == Eval(I, env, mem, o)
    {
    }
  }

  lemma {:induction false} WriteAgrees(I: Interp, home: Homes, keep: set<Value>, env: Env, cells: Cells, mem: Mem, os: seq<Operand>, xs: seq<int>)
    requires Agree(home, keep, env, cells)
    requires forall v :: Temp(v) in os ==> v in home
    requires NoClash(home, Temps(os), keep + Elems(Temps(os)))
    ensures var (env1, mem1) := WriteAll(I, env, mem, os, xs);
            var (cells1, mem2) := MWriteAll(I, home, cells, mem, os, xs);
            mem1 == mem2 && Agree(home, keep + Elems(Temps(os)), env1, cells1)
    decreases |os|
  {
    if os != [] {
      var x := if xs == [] then 0 else xs[0];
      var (env1, mem1) := WriteOne(I, env, mem, os[0], x);
      var (cells1, _) := MWriteOne(I, home, cells, mem, os[0], x);
      assert forall v :: Temp(v) in os[1..] ==> Temp(v) in os;
      var keep1 := if os[0].Temp? then keep + {os[0].v} else keep;
      assert keep1 + Elems(Temps(os[1..])) == keep + Elems(Temps(os));
      assert Agree(home, keep1, env1, cells1);
      WriteAgrees(I, home, keep1, env1, cells1, mem1, os[1..], if xs == [] then [] else xs[1..]);
    }
  }

  /** The argument shuffle delivers the arguments' values and disturbs no home. */
  lemma {:induction false} MarshalDelivers(I: Interp, home: Homes, cells: Cells, mem: Mem, args: seq<Operand>, gp: nat, fp: nat)
    requires forall v, l :: v in home && l in ArgLocs(args, gp, fp) ==> home[v] != l
    ensures var locs := ArgLocs(args, gp, fp);
            var moved := Marshal(I, home, cells, mem, args, locs);
            && ReadAll(moved, locs) == MEvalAll(I, home, cells, mem, args)
            && forall l :: l !in locs ==> Get(moved, l) == Get(cells, l)
    decreases |args|
  {
    if args != [] {
      var locs := ArgLocs(args, gp, fp);
      var gp1, fp1 := if IsFp(args[0]) then gp else gp + 1, if IsFp(args[0]) then fp + 1 else fp;
      var rest := ArgLocs(args[1..], gp1, fp1);
      assert locs[1..] == rest;
      assert forall l :: l in rest ==> l in locs;
      LaterArgLocs(args[1..], gp1, fp1);
      assert locs[0] !in rest;
      var x := MEval(I, home, cells, mem, args[0]);
      var cells1 := cells[locs[0] := x];
      MarshalDelivers(I, home, cells1, mem, args[1..], gp1, fp1);
      var moved := Marshal(I, home, cells1, mem, args[1..], rest);
      forall o
        ensures MEval(I, home, cells1, mem, o) == MEval(I, home, cells, mem, o)
      {
        assert locs[0] in locs;
      }
      forall i | 0 <= i < |locs|
        ensures Get(moved, locs[i]) == MEval(I, home, cells, mem, args[i])
      {
        if i > 0 {
          assert ReadAll(moved, rest)[i - 1] == MEvalAll(I, home, cells1, mem, args[1..])[i - 1];
        }
      }
    }
  }

  lemma {:induction false} LaterArgLocs(args: seq<Operand>, gp: nat, fp: nat)
    ensures forall l :: l in ArgLocs(args, gp, fp) ==> (l.IntReg? && gp <= l.n) || (l.FpReg? && fp <= l.n)
    decreases |args|
  {
    if args != [] {
      if IsFp(args[0]) {
        LaterArgLocs(args[1..], gp, fp + 1);
      } else {
        LaterArgLocs(args[1..], gp + 1, fp);
      }
    }
  }

  /** What holds on entry to the successor after the command's writes. */
  lemma AgreeAtSuccessor(p: seq<Cmd>, liveIn: Live, liveOut: Live, home: Homes, i: nat, s: nat, env: Env, cells: Cells)
    requires LiveTables(p, liveIn, liveOut) && i < |p| && s in Succ(p, i)
    requires forall v :: v in liveOut[i] <==> FlowsOut(p, liveIn, i, v)
    requires Agree(home, liveOut[i], env, cells)
    ensures Agree(home, liveIn[s], env, cells)
  {
    forall v | v in liveIn[s]
      ensures v in liveOut[i]
    {
      assert FlowsOut(p, liveIn, i, v);
    }
  }

  /** The tables of a command list, as the liveness pass returns them. */
  ghost predicate Analysed(p: seq<Cmd>, liveIn: Live, liveOut: Live) {
    Solves(p, UsesOf(p), DefsOf(p), liveIn, liveOut)
  }

  function UsesOf(p: seq<Cmd>): (r: seq<seq<Value>>)
    ensures |r| == |p|
  {
    seq(|p|, i requires 0 <= i < |p| => Uses(p[i]))
  }

  function DefsOf(p: seq<Cmd>): (r: seq<seq<Value>>)
    ensures |r| == |p|
  {
    seq(|p|, i requires 0 <= i < |p| => Defs(p[i]))
  }

  /** A command that writes `os` after its inputs were read keeps the relation. */
  lemma WriteKeeps(p: seq<Cmd>, I: Interp, liveIn: Live, liveOut: Live, home: Homes, clobbered: set<Loc>, i: nat,
                   env: Env, cells: Cells, mem: Mem, os: seq<Operand>, xs: seq<int>)
    requires Analysed(p, liveIn, liveOut) && GoodHomes(p, liveIn, liveOut, home, clobbered) && i < |p|
    requires os == Outputs(p[i])
    requires Agree(home, liveOut[i] - Elems(Defs(p[i])), env, cells)
    ensures var (env1, mem1) := WriteAll(I, env, mem, os, xs);
            var (cells1, mem2) := MWriteAll(I, home, cells, mem, os, xs);
            mem1 == mem2 && Agree(home, liveOut[i], env1, cells1)
  {
    var keep := liveOut[i] - Elems(Defs(p[i]));
    assert keep + Elems(Temps(os)) == liveOut[i] + Elems(Defs(p[i]));
    WriteAgrees(I, home, keep, env, cells, mem, os, xs);
  }

  lemma InputsLive(p: seq<Cmd>, liveIn: Live, liveOut: Live, i: nat)
    requires Analysed(p, liveIn, liveOut) && i < |p|
    ensures forall v :: Temp(v) in Inputs(p[i]) ==> v in liveIn[i]
    ensures liveOut[i] - Elems(Defs(p[i])) <= liveIn[i]
  {
    assert SolvesAt(p, UsesOf(p), DefsOf(p), liveIn, liveOut, i);
    assert UsesOf(p)[i] == Uses(p[i]) && DefsOf(p)[i] == Defs(p[i]);
  }

  /** Straight-line step from `i`: relate the two configurations at `i + 1`. */
  lemma ToNext(p: seq<Cmd>, liveIn: Live, liveOut: Live, home: Homes, i: nat, env: Env, cells: Cells, mem: Mem)
    requires Analysed(p, liveIn, liveOut) && i < |p|
    requires i + 1 < |p| ==> i + 1 in Succ(p, i)
    requires Agree(home, liveOut[i], env, cells)
    ensures Related(p, liveIn, home, At(i + 1, env, mem), MAt(i + 1, cells, mem))
  {
    assert SolvesAt(p, UsesOf(p), DefsOf(p), liveIn, liveOut, i);
    if i + 1 < |p| {
      AgreeAtSuccessor(p, liveIn, liveOut, home, i, i + 1, env, cells);
    }
  }

  lemma ToTarget(p: seq<Cmd>, liveIn: Live, liveOut: Live, home: Homes, i: nat, l: nat, env: Env, cells: Cells, mem: Mem)
    requires Analysed(p, liveIn, liveOut) && i < |p|
    requires forall t :: t in Branch(p, l) ==> t in Succ(p, i)
    requires Agree(home, liveOut[i], env, cells)
    ensures Related(p, liveIn, home, Goto(p, l, env, mem), MGoto(p, l, cells, mem))
  {
    assert SolvesAt(p, UsesOf(p), DefsOf(p), liveIn, liveOut, i);
    if TargetIn(p, l).Some? {
      var t := TargetIn(p, l).value;
      assert Branch(p, l)[0] == t;
      AgreeAtSuccessor(p, liveIn, liveOut, home, i, t, env, cells);
    }
  }

  lemma FallsThrough(p: seq<Cmd>, i: nat)
    requires i < |p| && !p[i].Return? && !p[i].Jump?
    ensures i + 1 < |p| ==> i + 1 in Succ(p, i)
    ensures IsJump(p[i]) ==> forall t :: t in Branch(p, p[i].target) ==> t in Succ(p, i)
  {
    if i + 1 < |p| {
      assert Fallthrough(p, i)[0] == i + 1;
    }
  }

  lemma CallKeeps(c: Cmd, I: Interp, liveIn: set<Value>, liveOut: set<Value>, home: Homes, clobbered: set<Loc>,
                  env: Env, cells: Cells, mem: Mem, junk: Loc -> int)
    requires c.Call? && CallSafe(c, liveIn, liveOut, home, clobbered)
    requires Agree(home, liveIn, env, cells) && forall v :: Temp(v) in c.args ==> v in liveIn
    requires liveOut - Elems(Defs(c)) <= liveIn
    ensures var locs := ArgLocs(c.args, 0, 0);
            var moved := Marshal(I, home, cells, mem, c.args, locs);
            && ReadAll(moved, locs) == EvalAll(I, env, mem, c.args)
            && Agree(home, liveOut - Elems(Defs(c)), env, Clobber(moved, clobbered, junk))
  {
    MarshalDelivers(I, home, cells, mem, c.args, 0, 0);
    EvalAgrees(I, home, liveIn, env, cells, mem, c.args);
  }

  lemma StepSimulates(p: seq<Cmd>, I: Interp, liveIn: Live, liveOut: Live, home: Homes, clobbered: set<Loc>,
                      c: Config, m: MConfig, junk: Loc -> int)
    requires Analysed(p, liveIn, liveOut) && GoodHomes(p, liveIn, liveOut, home, clobbered)
    requires Related(p, liveIn, home, c, m)
    ensures Related(p, liveIn, home, Step(p, I, c), MStep(p, I, home, clobbered, m, junk))
  {
    if c.At? && c.pc < |p| {
      var At(i, env, mem) := c;
      var cells := m.cells;
      InputsLive(p, liveIn, liveOut, i);
      EvalAgrees(I, home, liveIn[i], env, cells, mem, Inputs(p[i]));
      if !p[i].Return? && !p[i].Jump? {
        FallsThrough(p, i);
      }
      match p[i] {
        case Op(code, ins, outs) =>
          var (xs, mem1) := ExecOp(I, code, EvalAll(I, env, mem, ins), mem);
          WriteKeeps(p, I, liveIn, liveOut, home, clobbered, i, env, cells, mem1, outs, xs);
          var (env2, mem2) := WriteAll(I, env, mem1, outs, xs);
          var (cells2, _) := MWriteAll(I, home, cells, mem1, outs, xs);
          ToNext(p, liveIn, liveOut, home, i, env2, cells2, mem2);
        case Set(out, arg) =>
          SetSimulates(p, I, liveIn, liveOut, home, clobbered, c, m, junk);
        case Label(_) =>
          ToNext(p, liveIn, liveOut, home, i, env, cells, mem);
        case Jump(l) =>
          ToTarget(p, liveIn, liveOut, home, i, l, env, cells, mem);
        case JumpZero(cond, l) =>
          assert cond in Inputs(p[i]);
          ToTarget(p, liveIn, liveOut, home, i, l, env, cells, mem);
          ToNext(p, liveIn, liveOut, home, i, env, cells, mem);
        case JumpNotZero(cond, l) =>
          assert cond in Inputs(p[i]);
          ToTarget(p, liveIn, liveOut, home, i, l, env, cells, mem);
          ToNext(p, liveIn, liveOut, home, i, env, cells, mem);
        case Call(fn, args, ret) =>
          CallKeeps(p[i], I, liveIn[i], liveOut[i], home, clobbered, env, cells, mem, junk);
          var moved := Marshal(I, home, cells, mem, args, ArgLocs(args, 0, 0));
          var after := Clobber(moved, clobbered, junk);
          var (xs, mem1) := I.call(fn, EvalAll(I, env, mem, args), mem);
          WriteKeeps(p, I, liveIn, liveOut, home, clobbered, i, env, after, mem1, ret, xs);
          var (env2, mem2) := WriteAll(I, env, mem1, ret, xs);
          var (cells2, _) := MWriteAll(I, home, after, mem1, ret, xs);
          ToNext(p, liveIn, liveOut, home, i, env2, cells2, mem2);
        case Return(result) =>
      }
    }
  }

  lemma SetSimulates(p: seq<Cmd>, I: Interp, liveIn: Live, liveOut: Live, home: Homes, clobbered: set<Loc>,
                     c: Config, m: MConfig, junk: Loc -> int)
    requires Analysed(p, liveIn, liveOut) && GoodHomes(p, liveIn, liveOut, home, clobbered)
    requires c.At? && c.pc < |p| && p[c.pc].Set? && Related(p, liveIn, home, c, m)
    ensures Related(p, liveIn, home, Step(p, I, c), MStep(p, I, home, clobbered, m, junk))
  {
    var At(i, env, mem) := c;
    var Set(out, arg) := p[i];
    InputsLive(p, liveIn, liveOut, i);
    assert arg in Inputs(p[i]);
    FallsThrough(p, i);
    EvalAgrees(I, home, liveIn[i], env, m.cells, mem, Inputs(p[i]));
    var x := Eval(I, env, mem, arg);
    WriteKeeps(p, I, liveIn, liveOut, home, clobbered, i, env, m.cells, mem, [out], [x]);
    assert WriteAll(I, env, mem, [out], [x]) == WriteOne(I, env, mem, out, x);
    assert MWriteAll(I, home, m.cells, mem, [out], [x]) == MWriteOne(I, home, m.cells, mem, out, x);
    var (env1, mem1) := WriteOne(I, env, mem, out, x);
    var (cells1, _) := MWriteOne(I, home, m.cells, mem, out, x);
    if out.Temp? && out == arg {
      assert Agree(home, liveOut[i], env1, m.cells);
      ToNext(p, liveIn, liveOut, home, i, env1, m.cells, mem1);
    } else {
      ToNext(p, liveIn, liveOut, home, i, env1, cells1, mem1);
    }
  }

  /** Whatever the caller-saved registers hold after each call, allocated code
      takes the same branches, makes the same accesses and calls, and returns
      the same result as the IL, for every number of steps. */
  lemma {:induction false} RunSimulates(p: seq<Cmd>, I: Interp, liveIn: Live, liveOut: Live, home: Homes, clobbered: set<Loc>,
                                        c: Config, m: MConfig, junk: (nat, Loc) -> int, n: nat)
    requires Analysed(p, liveIn, liveOut) && GoodHomes(p, liveIn, liveOut, home, clobbered)
    requires Related(p, liveIn, home, c, m)
    ensures Related(p, liveIn, home, Run(p, I, c, n), MRun(p, I, home, clobbered, m, junk, n))
  {
    if n > 0 {
      RunSimulates(p, I, liveIn, liveOut, home, clobbered, c, m, junk, n - 1);
      StepSimulates(p, I, liveIn, liveOut, home, clobbered, Run(p, I, c, n - 1),
                    MRun(p, I, home, clobbered, m, junk, n - 1), l => junk(n - 1, l));
    }
  }
}
