/** The rewritten function runs like the original one. */
module ReducedRun {
  import opened IL
  import opened SameCommands
  import opened UseCounts
  import opened AddressTrace
  import opened StrengthReduction
  import opened ReducedLoop
  import opened ReducedCode

  function NewCode(k: Plan): seq<Cmd>
    requires Fits(k.p, k.t) && k.start < k.back < |k.p|
  {
    Rewritten(k.p, k.start, k.back, k.moved, k.addr, k.Stride(), k.tmp)
  }

  function NewPos(k: Plan, i: nat): nat
    requires Fits(k.p, k.t)
  {
    Pos(k.start, k.back, k.moved, i)
  }

  // ---- the relation between the two runs ----

  ghost predicate Agree(k: Plan, e: Env, d: Env)
    requires Fits(k.p, k.t)
  {
    forall v {:trigger Dead(k, v)} {:trigger Get(d, v)} :: !Dead(k, v) ==> Get(e, v) == Get(d, v)
  }

  /** Inside the loop the new pointer holds the address the old chain computes. */
  ghost predicate PointerOk(k: Plan, i: nat, e: Env, d: Env)
    requires Fits(k.p, k.t) && k.addr in k.t.defOf
  {
    k.start <= i <= k.back ==> BodyOk(k, i, e) && Get(d, k.addr) == Address(k, i, e)
  }

  ghost predicate Match(k: Plan, c: Config, d: Config)
    requires Fits(k.p, k.t) && k.addr in k.t.defOf
  {
    match c
    case At(pc, env, mem) =>
      d.At? && d.pc == NewPos(k, pc) && d.mem == mem && Agree(k, env, d.env) && PointerOk(k, pc, env, d.env)
    case _ => d == c
  }

  lemma PlanMovable(k: Plan)
    requires Ready(k)
    ensures Movable(k.p, k.start, k.back, k.moved) && k.addr in k.t.defOf
    ensures forall d :: d in k.moved ==> d < k.u
  {
    assert ChainTemp(k, k.addr);
    forall d | d in k.moved
      ensures k.start < d < k.u
    {
      assert MovedReady(k, d);
    }
  }

  /** A command that is neither moved nor the memory operation reads nothing dead. */
  lemma LiveInputs(k: Plan, I: Interp, i: nat, e: Env, d: Env, mem: Mem)
    requires Ready(k) && i < |k.p| && i !in k.moved && i != k.at && Agree(k, e, d)
    ensures SameInputs(I, k.p[i], e, d, mem)
  {
    forall o | o in Inputs(k.p[i])
      ensures Eval(I, e, mem, o) == Eval(I, d, mem, o)
    {
      if o.Temp? {
        assert UsedAt(k.p, o.v, i);
        assert !ChainTemp(k, o.v);
        assert !Dead(k, o.v);
      }
    }
  }

  /** The memory operation goes through the pointer, and reads nothing else dead. */
  lemma AccessInputs(k: Plan, I: Interp, e: Env, d: Env, mem: Mem)
    requires Ready(k) && Agree(k, e, d) && k.addr in k.t.defOf && BodyOk(k, k.at, e) && Get(d, k.addr) == Address(k, k.at, e)
    ensures SameInputs(I, k.p[k.at], e, d, mem)
  {
    var c := k.p[k.at];
    assert c.ins[0] == Temp(k.addr);
    assert UsedAt(k.p, k.addr, k.at) && ChainTemp(k, k.addr) && UsedInChain(k, k.addr);
    assert Get(e, k.addr) == Get(d, k.addr);
    forall o | o in Inputs(c)
      ensures Eval(I, e, mem, o) == Eval(I, d, mem, o)
    {
      if o.Temp? && o.v != k.addr {
        assert UsedAt(k.p, o.v, k.at);
        assert !ChainTemp(k, o.v);
        assert !Dead(k, o.v);
      }
    }
  }

  lemma AgreeAfter(k: Plan, os: seq<Operand>, e: Env, e1: Env, d: Env, d1: Env)
    requires Fits(k.p, k.t) && Agree(k, e, d) && SameWrites(os, e, e1, d, d1)
    ensures Agree(k, e1, d1)
  {
    forall v | !Dead(k, v)
      ensures Get(e1, v) == Get(d1, v)
    {
      if Temp(v) !in os {
        assert Get(e1, v) == Get(e, v) && Get(d1, v) == Get(d, v);
      }
    }
  }

  // ---- jumps ----

  /** A label keeps its place relative to the commands that stay. */
  lemma LabelsMove(k: Plan, l: nat)
    requires Ready(k)
    ensures var t := TargetIn(k.p, l);
            && TargetIn(NewCode(k), l) == (if t.Some? then Some(NewPos(k, t.value)) else None)
            && (t.Some? ==> !(k.start < t.value <= k.back))
  {
    PlanMovable(k);
    TargetMoves(k.p, k.start, k.back, k.moved, k.addr, k.Stride(), k.tmp, l);
  }

  /** Only the jump at the bottom goes to the loop's label. */
  lemma OnlyBackEdge(k: Plan, i: nat)
    requires IsLoop(k.p, k.start, k.back) && JumpAt(k.p, i)
    ensures TargetIn(k.p, k.p[i].target) == Some(k.start) <==> i == k.back
  {
  }

  lemma JumpsMatch(k: Plan, i: nat, e: Env, d: Env, mem: Mem)
    requires Ready(k) && JumpAt(k.p, i) && i != k.back && Agree(k, e, d) && k.addr in k.t.defOf
    ensures Match(k, Goto(k.p, k.p[i].target, e, mem), Goto(NewCode(k), k.p[i].target, d, mem))
    ensures Goto(k.p, k.p[i].target, e, mem).At? ==> Goto(k.p, k.p[i].target, e, mem).pc != k.start
  {
    LabelsMove(k, k.p[i].target);
    OnlyBackEdge(k, i);
  }

  lemma BackJump(k: Plan, e: Env, d: Env, mem: Mem)
    requires Ready(k) && Agree(k, e, d) && k.addr in k.t.defOf && Get(d, k.addr) == AddressIn(k, e)
    ensures Match(k, Goto(k.p, k.p[k.back].target, e, mem), Goto(NewCode(k), k.p[k.back].target, d, mem))
  {
    LabelsMove(k, k.p[k.back].target);
    assert JumpAt(k.p, k.back);
    OnlyBackEdge(k, k.back);
  }

  // ---- the loop body ----

  lemma OnlyWritesOutputs(k: Plan, i: nat, e: Env, e1: Env, d: Env, d1: Env)
    requires i < |k.p| && SameWrites(Outputs(k.p[i]), e, e1, d, d1)
    ensures OnlyWrites(k, i, e, e1)
  {
  }

  lemma AddLiteralStep(p: seq<Cmd>, I: Interp, a: nat, iv: Value, inc: int, tv: Value, e: Env, mem: Mem)
    requires a < |p| && AddedLiteral(p[a], iv) == Some(inc) && Temp(tv) in Outputs(p[a])
    ensures Outputs(p[a]) == [Temp(tv)]
    ensures Step(p, I, At(a, e, mem)) == At(a + 1, e[tv := Get(e, iv) + inc], mem)
  {
    ShapeStep(p, I, a, e, mem, tv);
  }

  /** The addition that feeds the update stays in the loop. */
  lemma AdditionStays(k: Plan)
    requires Ready(k)
    ensures k.a !in k.moved && Temp(k.tv) in Outputs(k.p[k.a]) && AddedLiteral(k.p[k.a], k.iv) == Some(k.inc)
  {
    assert Temp(k.tv) in Outputs(k.p[k.a]);
    if k.a in k.moved {
      var o := MovedOutput(k, k.a);
      NotTheChains(k, o);
    }
  }

  lemma NotTheChains(k: Plan, o: Value)
    requires Ready(k) && ChainTemp(k, o)
    ensures o != k.tv && o != k.iv
  {
    assert Dead(k, o);
  }

  /** A command that stays in the body keeps the old loop's invariant and the address. */
  lemma BodyKeeps(k: Plan, i: nat, e: Env, e1: Env)
    requires Ready(k) && k.addr in k.t.defOf && k.start < i < k.back && i !in k.moved && BodyOk(k, i, e)
    requires OnlyWrites(k, i, e, e1)
    requires i == k.u ==> e1 == e[k.iv := Get(e, k.tv)]
    requires i == k.a ==> Get(e1, k.tv) == Get(e, k.iv) + k.inc
    ensures BodyOk(k, i + 1, e1) && Address(k, i + 1, e1) == Address(k, i, e)
  {
    if i == k.u {
      UpdateKeeps(k, e, e1);
    } else {
      BodyAddress(k, i, e, e1);
      if i == k.a {
        AdditionKeeps(k, e, e1);
      } else {
        OrdinaryKeeps(k, i, e, e1);
      }
    }
  }

  lemma BodyAddress(k: Plan, i: nat, e: Env, e1: Env)
    requires Ready(k) && k.start < i < k.back && i != k.u && OnlyWrites(k, i, e, e1)
    ensures Address(k, i + 1, e1) == Address(k, i, e)
  {
    AddressStays(k, i, e, e1);
  }

  /** What the two special commands of the body write. */
  lemma BodyComputes(k: Plan, I: Interp, i: nat, e: Env, mem: Mem)
    requires Ready(k)
    ensures i == k.u ==> Step(k.p, I, At(i, e, mem)) == At(i + 1, e[k.iv := Get(e, k.tv)], mem)
    ensures i == k.a ==> Step(k.p, I, At(i, e, mem)) == At(i + 1, e[k.tv := Get(e, k.iv) + k.inc], mem)
  {
    if i == k.a {
      AdditionStays(k);
      AddLiteralStep(k.p, I, k.a, k.iv, k.inc, k.tv, e, mem);
    }
  }

  /** The new pointer is not written between its set-up and the loop's bottom. */
  lemma PointerNotWritten(k: Plan, i: nat)
    requires Ready(k) && k.start < i < k.back && i !in k.moved
    ensures Temp(k.addr) !in Outputs(k.p[i])
  {
    AddressNotHere(k, i);
    assert ChainTemp(k, k.addr);
    assert DefinedAt(k.p, k.addr, i) <==> Temp(k.addr) in Outputs(k.p[i]);
  }

  lemma BodyInputs(k: Plan, I: Interp, i: nat, e: Env, d: Env, mem: Mem)
    requires Ready(k) && k.addr in k.t.defOf && k.start < i < k.back && i !in k.moved
    requires Agree(k, e, d) && PointerOk(k, i, e, d)
    ensures SameInputs(I, k.p[i], e, d, mem)
  {
    if i == k.at {
      AccessInputs(k, I, e, d, mem);
    } else {
      LiveInputs(k, I, i, e, d, mem);
    }
  }

  lemma BodyFallsThrough(k: Plan, I: Interp, i: nat, e: Env, d: Env, mem: Mem, s: Config, r: Config)
    requires Ready(k) && k.addr in k.t.defOf && k.start < i < k.back && i !in k.moved
    requires Agree(k, e, d) && PointerOk(k, i, e, d) && s == Step(k.p, I, At(i, e, mem))
    requires StepsAlike(k.p[i], i, NewPos(k, i), e, d, s, r) && NewPos(k, i + 1) == NewPos(k, i) + 1
    ensures Match(k, s, r)
  {
    if s.At? {
      OnlyWritesOutputs(k, i, e, s.env, d, r.env);
      BodyComputes(k, I, i, e, mem);
      BodyKeeps(k, i, e, s.env);
      PointerNotWritten(k, i);
      AgreeAfter(k, Outputs(k.p[i]), e, s.env, d, r.env);
      assert Get(r.env, k.addr) == Get(d, k.addr);
    }
  }

  lemma BodyStep(k: Plan, I: Interp, i: nat, e: Env, d: Env, mem: Mem)
    requires Ready(k) && k.addr in k.t.defOf && k.start < i < k.back && i !in k.moved
    requires Agree(k, e, d) && PointerOk(k, i, e, d)
    ensures Match(k, Step(k.p, I, At(i, e, mem)), Step(NewCode(k), I, At(NewPos(k, i), d, mem)))
  {
    StayPlace(k, i);
    BodyInputs(k, I, i, e, d, mem);
    SameCommand(k.p, NewCode(k), I, i, NewPos(k, i), e, d, mem);
    if Taken(I, k.p[i], e, mem) {
      assert JumpAt(k.p, i);
      JumpsMatch(k, i, e, d, mem);
    } else {
      BodyFallsThrough(k, I, i, e, d, mem, Step(k.p, I, At(i, e, mem)), Step(NewCode(k), I, At(NewPos(k, i), d, mem)));
    }
  }

  lemma MovedAgrees(k: Plan, o: Value, e: Env, d: Env, e1: Env)
    requires Fits(k.p, k.t) && Agree(k, e, d) && ChainTemp(k, o) && forall v :: v != o ==> Get(e1, v) == Get(e, v)
    ensures Agree(k, e1, d)
  {
    assert Dead(k, o);
  }

  lemma MovedEffect(k: Plan, i: nat, o: Value, e: Env, d: Env, e1: Env)
    requires Ready(k) && k.addr in k.t.defOf && i in k.moved && ChainTemp(k, o) && k.t.defOf[o] == i
    requires Chain(k.p, k.t, Temp(o), 0) <= k.moved && Outputs(k.p[i]) == [Temp(o)]
    requires e1 == e[o := ShapeVal(ShapeOf(k.p[i]), e)] && PointerOk(k, i, e, d)
    ensures PointerOk(k, i + 1, e1, d)
  {
    assert MovedReady(k, i);
    assert forall v :: Temp(v) in Outputs(k.p[i]) <==> v == o;
    MovedKeeps(k, i, o, e, e1);
  }

  /** A moved command: the old function executes it, the new one has done so already. */
  lemma MovedStep(k: Plan, I: Interp, i: nat, e: Env, d: Env, mem: Mem)
    requires Ready(k) && k.addr in k.t.defOf && i in k.moved && Agree(k, e, d) && PointerOk(k, i, e, d)
    ensures Match(k, Step(k.p, I, At(i, e, mem)), At(NewPos(k, i), d, mem))
    ensures Step(k.p, I, At(i, e, mem)).At? && Step(k.p, I, At(i, e, mem)).pc == i + 1
  {
    var o := MovedOutput(k, i);
    MovedComputes(k, I, i, o, e, mem);
    var e1 := e[o := ShapeVal(ShapeOf(k.p[i]), e)];
    MovedEffect(k, i, o, e, d, e1);
    MovedAgrees(k, o, e, d, e1);
    MovedPlace(k, i);
  }

  lemma MovedComputes(k: Plan, I: Interp, i: nat, o: Value, e: Env, mem: Mem)
    requires Ready(k) && i in k.moved && Outputs(k.p[i]) == [Temp(o)]
    ensures Step(k.p, I, At(i, e, mem)) == At(i + 1, e[o := ShapeVal(ShapeOf(k.p[i]), e)], mem)
  {
    assert MovedReady(k, i);
    ShapeStep(k.p, I, i, e, mem, o);
  }

  lemma MovedPlace(k: Plan, i: nat)
    requires Ready(k) && i in k.moved
    ensures NewPos(k, i + 1) == NewPos(k, i)
    ensures var j := k.start + Within(k.moved, k.start + 1, i); j < |NewCode(k)| && NewCode(k)[j] == k.p[i]
  {
    PlanMovable(k);
    MovedAt(k.p, k.start, k.back, k.moved, k.addr, k.Stride(), k.tmp, i);
  }

  lemma StayPlace(k: Plan, i: nat)
    requires Ready(k) && i < |k.p| && i !in k.moved && i != k.back
    ensures NewPos(k, i) < |NewCode(k)| && NewCode(k)[NewPos(k, i)] == k.p[i]
    ensures i + 1 != k.start ==> NewPos(k, i + 1) == NewPos(k, i) + 1
  {
    PlanMovable(k);
    StaysAt(k.p, k.start, k.back, k.moved, k.addr, k.Stride(), k.tmp, i);
  }

  /** Nothing of the body has been computed at the loop's label. */
  lemma AtTheTop(k: Plan, e: Env, d: Env)
    requires Ready(k) && k.addr in k.t.defOf && Get(d, k.addr) == AddressIn(k, e)
    ensures PointerOk(k, k.start, e, d) && PointerOk(k, k.start + 1, e, d)
  {
  }

  /** The loop's label. */
  lemma LabelStep(k: Plan, I: Interp, e: Env, d: Env, mem: Mem)
    requires Ready(k) && k.addr in k.t.defOf && Agree(k, e, d) && PointerOk(k, k.start, e, d)
    ensures Match(k, Step(k.p, I, At(k.start, e, mem)), Step(NewCode(k), I, At(NewPos(k, k.start), d, mem)))
  {
    PlanMovable(k);
    StayPlace(k, k.start);
    AtTheTop(k, e, d);
    SameLabel(k.p, NewCode(k), I, k.start, NewPos(k, k.start), e, d, mem);
  }

  lemma SameLabel(p: seq<Cmd>, q: seq<Cmd>, I: Interp, i: nat, j: nat, e: Env, d: Env, mem: Mem)
    requires i < |p| && j < |q| && q[j] == p[i] && p[i].Label?
    ensures Step(p, I, At(i, e, mem)) == At(i + 1, e, mem) && Step(q, I, At(j, d, mem)) == At(j + 1, d, mem)
  {
  }

  /** How far the new function is when the old one is in front of `pc`: at the
      loop's label it has still to run the moved commands, unless it came from the bottom. */
  ghost predicate MatchOrEnter(k: Plan, c: Config, d: Config)
    requires Fits(k.p, k.t) && k.addr in k.t.defOf
  {
    if c.At? && c.pc == k.start then d.At? && d.pc == k.start && d.mem == c.mem && Agree(k, c.env, d.env)
    else Match(k, c, d)
  }

  /** A command outside the loop. */
  lemma OutsideStep(k: Plan, I: Interp, i: nat, e: Env, d: Env, mem: Mem)
    requires Ready(k) && k.addr in k.t.defOf && i < |k.p| && !(k.start <= i <= k.back) && Agree(k, e, d)
    ensures MatchOrEnter(k, Step(k.p, I, At(i, e, mem)), Step(NewCode(k), I, At(NewPos(k, i), d, mem)))
  {
    OutsideInputs(k, I, i, e, d, mem);
    SameCommand(k.p, NewCode(k), I, i, NewPos(k, i), e, d, mem);
    if Taken(I, k.p[i], e, mem) {
      assert JumpAt(k.p, i);
      JumpsMatch(k, i, e, d, mem);
    } else {
      OutsideFallsThrough(k, i, e, d, Step(k.p, I, At(i, e, mem)), Step(NewCode(k), I, At(NewPos(k, i), d, mem)));
    }
  }

  lemma OutsideInputs(k: Plan, I: Interp, i: nat, e: Env, d: Env, mem: Mem)
    requires Ready(k) && k.addr in k.t.defOf && i < |k.p| && !(k.start <= i <= k.back) && Agree(k, e, d)
    ensures i !in k.moved && SameInputs(I, k.p[i], e, d, mem)
    ensures NewPos(k, i) < |NewCode(k)| && NewCode(k)[NewPos(k, i)] == k.p[i]
  {
    PlanMovable(k);
    StayPlace(k, i);
    LiveInputs(k, I, i, e, d, mem);
  }

  lemma OutsideFallsThrough(k: Plan, i: nat, e: Env, d: Env, s: Config, r: Config)
    requires Fits(k.p, k.t) && k.addr in k.t.defOf && i < |k.p| && !(k.start <= i <= k.back) && k.start < k.back && Agree(k, e, d)
    requires StepsAlike(k.p[i], i, NewPos(k, i), e, d, s, r)
    ensures MatchOrEnter(k, s, r)
  {
    if s.At? {
      AgreeAfter(k, Outputs(k.p[i]), e, s.env, d, r.env);
    }
  }

  // ---- the bottom of the loop ----

  /** The two inserted commands. */
  lemma AdvanceRuns(q: seq<Cmd>, I: Interp, i: nat, a: Value, n: int, t: Value, d: Env, mem: Mem)
    requires i + 1 < |q| && q[i] == Op(Add, [Temp(a), Lit(n)], [Temp(t)]) && q[i + 1] == Set(Temp(a), Temp(t))
    ensures Step(q, I, Step(q, I, At(i, d, mem))) == At(i + 2, d[t := Get(d, a) + n][a := Get(d, a) + n], mem)
  {
    AddStep(q, I, i, d, mem, a, n, t);
  }

  lemma ThreeSteps(q: seq<Cmd>, I: Interp, c: Config)
    ensures Run(q, I, c, 3) == Step(q, I, Step(q, I, Step(q, I, c)))
  {
    assert Run(q, I, c, 1) == Step(q, I, c);
    assert Run(q, I, c, 2) == Step(q, I, Run(q, I, c, 1));
  }

  /** The pointer advances by one stride, to the address of the next iteration. */
  lemma AdvanceAgrees(k: Plan, e: Env, d: Env, d1: Env)
    requires Ready(k) && k.addr in k.t.defOf && Agree(k, e, d) && PointerOk(k, k.back, e, d)
    requires d1 == d[k.tmp := Get(d, k.addr) + k.Stride()][k.addr := Get(d, k.addr) + k.Stride()]
    ensures Agree(k, e, d1) && Get(d1, k.addr) == AddressIn(k, e)
  {
    PointerDead(k);
  }

  lemma PointerDead(k: Plan)
    requires Ready(k)
    ensures Dead(k, k.addr) && Dead(k, k.tmp)
  {
    assert ChainTemp(k, k.addr);
  }

  lemma BackPlace(k: Plan)
    requires Ready(k)
    ensures var q := NewCode(k);
            && NewPos(k, k.back) == k.back && k.back + 2 < |q|
            && q[k.back] == Op(Add, [Temp(k.addr), Lit(k.Stride())], [Temp(k.tmp)])
            && q[k.back + 1] == Set(Temp(k.addr), Temp(k.tmp)) && q[k.back + 2] == k.p[k.back]
  {
    PlanMovable(k);
    AdvanceAt(k.p, k.start, k.back, k.moved, k.addr, k.Stride(), k.tmp);
  }

  lemma AddStep(q: seq<Cmd>, I: Interp, i: nat, d: Env, mem: Mem, a: Value, n: int, t: Value)
    requires i < |q| && q[i] == Op(Add, [Temp(a), Lit(n)], [Temp(t)])
    ensures Step(q, I, At(i, d, mem)) == At(i + 1, d[t := Get(d, a) + n], mem)
  {
    WriteSingle(I, d, mem, t, Get(d, a) + n);
    var xs := EvalAll(I, d, mem, q[i].ins);
    assert xs == [Get(d, a), n];
  }

  lemma BackStep(k: Plan, I: Interp, e: Env, d: Env, mem: Mem)
    requires Ready(k) && k.addr in k.t.defOf && Agree(k, e, d) && PointerOk(k, k.back, e, d)
    ensures Match(k, Step(k.p, I, At(k.back, e, mem)), Run(NewCode(k), I, At(NewPos(k, k.back), d, mem), 3))
  {
    BackStepTo(k, I, e, d, mem, Run(NewCode(k), I, At(NewPos(k, k.back), d, mem), 3));
  }

  lemma BackStepTo(k: Plan, I: Interp, e: Env, d: Env, mem: Mem, r: Config)
    requires Ready(k) && k.addr in k.t.defOf && Agree(k, e, d) && PointerOk(k, k.back, e, d)
    requires r == Run(NewCode(k), I, At(NewPos(k, k.back), d, mem), 3)
    ensures Match(k, Step(k.p, I, At(k.back, e, mem)), r)
  {
    var d1 := d[k.tmp := Get(d, k.addr) + k.Stride()][k.addr := Get(d, k.addr) + k.Stride()];
    AfterAdvance(k, I, d, d1, mem, r);
    AdvanceAgrees(k, e, d, d1);
    BackJumpStep(k, I, e, d1, mem, r);
  }

  lemma AfterAdvance(k: Plan, I: Interp, d: Env, d1: Env, mem: Mem, r: Config)
    requires Ready(k) && k.addr in k.t.defOf && r == Run(NewCode(k), I, At(NewPos(k, k.back), d, mem), 3)
    requires d1 == d[k.tmp := Get(d, k.addr) + k.Stride()][k.addr := Get(d, k.addr) + k.Stride()]
    ensures r == Step(NewCode(k), I, At(k.back + 2, d1, mem))
  {
    BackPlace(k);
    BackRuns(NewCode(k), I, k.back, NewPos(k, k.back), k.addr, k.Stride(), k.tmp, d, d1, mem, r);
  }

  lemma BackRuns(q: seq<Cmd>, I: Interp, i: nat, pos: nat, a: Value, n: int, t: Value, d: Env, d1: Env, mem: Mem, r: Config)
    requires i + 1 < |q| && q[i] == Op(Add, [Temp(a), Lit(n)], [Temp(t)]) && q[i + 1] == Set(Temp(a), Temp(t))
    requires pos == i && r == Run(q, I, At(pos, d, mem), 3) && d1 == d[t := Get(d, a) + n][a := Get(d, a) + n]
    ensures r == Step(q, I, At(i + 2, d1, mem))
  {
    AdvanceRuns(q, I, i, a, n, t, d, mem);
    ThreeSteps(q, I, At(i, d, mem));
  }

  lemma BackJumpStep(k: Plan, I: Interp, e: Env, d: Env, mem: Mem, r: Config)
    requires Ready(k) && k.addr in k.t.defOf && Agree(k, e, d) && Get(d, k.addr) == AddressIn(k, e)
    requires r == Step(NewCode(k), I, At(k.back + 2, d, mem))
    ensures Match(k, Step(k.p, I, At(k.back, e, mem)), r)
  {
    BackAlike(k, I, e, d, mem, r);
    if Taken(I, k.p[k.back], e, mem) {
      BackJump(k, e, d, mem);
    } else {
      BackFallsThrough(k, e, d, Step(k.p, I, At(k.back, e, mem)), r);
    }
  }

  lemma BackAlike(k: Plan, I: Interp, e: Env, d: Env, mem: Mem, r: Config)
    requires Ready(k) && k.addr in k.t.defOf && Agree(k, e, d) && r == Step(NewCode(k), I, At(k.back + 2, d, mem))
    ensures Taken(I, k.p[k.back], e, mem) ==>
              && Step(k.p, I, At(k.back, e, mem)) == Goto(k.p, k.p[k.back].target, e, mem)
              && r == Goto(NewCode(k), k.p[k.back].target, d, mem)
    ensures !Taken(I, k.p[k.back], e, mem) ==> StepsAlike(k.p[k.back], k.back, k.back + 2, e, d, Step(k.p, I, At(k.back, e, mem)), r)
  {
    PlanMovable(k);
    BackPlace(k);
    LiveInputs(k, I, k.back, e, d, mem);
    SameCommand(k.p, NewCode(k), I, k.back, k.back + 2, e, d, mem);
  }

  lemma BackFallsThrough(k: Plan, e: Env, d: Env, s: Config, r: Config)
    requires Fits(k.p, k.t) && k.addr in k.t.defOf && k.start < k.back < |k.p| && IsJump(k.p[k.back]) && Agree(k, e, d)
    requires StepsAlike(k.p[k.back], k.back, k.back + 2, e, d, s, r)
    ensures Match(k, s, r)
  {
    if s.At? {
      AgreeAfter(k, Outputs(k.p[k.back]), e, s.env, d, r.env);
    }
  }

  // ---- entering the loop ----

  /** After the moved commands below `i` the new environment holds their traced values. */
  ghost predicate SetUp(k: Plan, i: nat, d: Env, d1: Env)
    requires Fits(k.p, k.t)
  {
    LinksHold(k, i, d1) && (forall v {:trigger Get(d1, v)} :: !ChainTemp(k, v) ==> Get(d1, v) == Get(d, v))
  }

  /** The environment after the moved commands below `i`. */
  function SetUpEnv(p: seq<Cmd>, s: set<nat>, lo: nat, i: nat, d: Env): Env
    requires i <= |p|
    decreases i
  {
    if i <= lo then d
    else
      var d0 := SetUpEnv(p, s, lo, i - 1, d);
      if i - 1 in s then Computed(p[i - 1], d0) else d0
  }

  function Computed(c: Cmd, d: Env): Env {
    if |Outputs(c)| == 1 && Outputs(c)[0].Temp? then d[Outputs(c)[0].v := ShapeVal(ShapeOf(c), d)] else d
  }

  /** Command `d` is at `start + Within(s, start + 1, d)` of `q`, and just computes its output. */
  ghost predicate FrontAt(p: seq<Cmd>, q: seq<Cmd>, s: set<nat>, start: nat, d: nat) {
    && d < |p| && start + Within(s, start + 1, d) < |q| && q[start + Within(s, start + 1, d)] == p[d]
    && !ShapeOf(p[d]).Untraceable? && |Outputs(p[d])| == 1 && Outputs(p[d])[0].Temp?
    && (forall y :: Reads(ShapeOf(p[d]), y) ==> !y.Pinned?)
  }

  /** The commands in front of the loop run one after the other. */
  lemma {:induction false} FrontRuns(p: seq<Cmd>, q: seq<Cmd>, I: Interp, s: set<nat>, start: nat, i: nat, d: Env, mem: Mem)
    requires start + 1 <= i <= |p| && forall j :: j in s ==> FrontAt(p, q, s, start, j)
    ensures Run(q, I, At(start, d, mem), Within(s, start + 1, i))
            == At(start + Within(s, start + 1, i), SetUpEnv(p, s, start + 1, i, d), mem)
    decreases i
  {
    if i > start + 1 {
      FrontRuns(p, q, I, s, start, i - 1, d, mem);
      if i - 1 in s {
        assert FrontAt(p, q, s, start, i - 1);
        var d0 := SetUpEnv(p, s, start + 1, i - 1, d);
        assert Outputs(p[i - 1]) == [Temp(Outputs(p[i - 1])[0].v)];
        ShapeStep(q, I, start + Within(s, start + 1, i - 1), d0, mem, Outputs(p[i - 1])[0].v);
      }
    }
  }

  lemma MovedInFront(k: Plan)
    requires Ready(k)
    ensures forall d :: d in k.moved ==> FrontAt(k.p, NewCode(k), k.moved, k.start, d)
  {
    forall d | d in k.moved
      ensures FrontAt(k.p, NewCode(k), k.moved, k.start, d)
    {
      assert MovedReady(k, d);
      var o := MovedOutput(k, d);
      MovedPlace(k, d);
    }
  }

  ghost function EnvBelow(k: Plan, d: Env, i: nat): Env
    requires i <= |k.p|
  {
    SetUpEnv(k.p, k.moved, k.start + 1, i, d)
  }

  /** Every moved command below `i` has given its temporary the traced value. */
  lemma FrontSetsUp(k: Plan, d: Env, i: nat)
    requires Ready(k) && k.start + 1 <= i <= k.u
    ensures SetUp(k, i, d, EnvBelow(k, d, i))
  {
    FrontReaches(k, d, i);
  }

  /** The indices up to which the moved commands have done their work. */
  ghost function Fronts(k: Plan, d: Env): iset<nat>
    requires Fits(k.p, k.t)
  {
    iset i: nat | i <= |k.p| && SetUp(k, i, d, EnvBelow(k, d, i))
  }

  lemma {:induction false} FrontReaches(k: Plan, d: Env, i: nat)
    requires Ready(k) && k.start + 1 <= i <= k.u
    ensures i in Fronts(k, d)
    decreases i
  {
    if i == k.start + 1 {
      NothingYet(k, d);
    } else {
      FrontReaches(k, d, i - 1);
      FrontSetsNext(k, d, i - 1);
    }
  }

  lemma FrontSetsNext(k: Plan, d: Env, i: nat)
    requires Ready(k) && k.start < i < k.u && i in Fronts(k, d)
    ensures i + 1 in Fronts(k, d)
  {
    FrontSetsOne(k, d, EnvBelow(k, d, i), EnvBelow(k, d, i + 1), i);
  }

  lemma FrontSetsOne(k: Plan, d: Env, d0: Env, d1: Env, i: nat)
    requires Ready(k) && k.start < i < k.u && i < |k.p| && SetUp(k, i, d, d0)
    requires d1 == if i in k.moved then Computed(k.p[i], d0) else d0
    ensures SetUp(k, i + 1, d, d1)
  {
    if i in k.moved {
      var o := MovedOutput(k, i);
      SetUpLinks(k, d, d0, d1, i, o);
    } else {
      NothingHere(k, i, d0);
    }
  }

  lemma NothingYet(k: Plan, d: Env)
    requires LastDefs(k.p, k.start + 1, k.back, k.t.defOf) && Fits(k.p, k.t)
    ensures SetUp(k, k.start + 1, d, d)
  {
  }

  lemma NothingHere(k: Plan, i: nat, d: Env)
    requires Ready(k) && i !in k.moved && LinksHold(k, i, d)
    ensures LinksHold(k, i + 1, d)
  {
    AddressNotHere(k, i);
  }

  lemma SetUpLinks(k: Plan, d: Env, d0: Env, d1: Env, i: nat, o: Value)
    requires Ready(k) && i in k.moved && SetUp(k, i, d, d0) && k.start < i && i < |k.p|
    requires ChainTemp(k, o) && k.t.defOf[o] == i && Chain(k.p, k.t, Temp(o), 0) <= k.moved && Outputs(k.p[i]) == [Temp(o)]
    requires d1 == d0[o := ShapeVal(ShapeOf(k.p[i]), d0)]
    ensures SetUp(k, i + 1, d, d1)
  {
    assert MovedReady(k, i);
    assert forall v :: Temp(v) in Outputs(k.p[i]) <==> v == o;
    MovedLinks(k, i, o, d0, d1);
  }

  /** The traced value of the address does not depend on the scratch temporary. */
  lemma {:induction false} ScratchIrrelevant(p: seq<Cmd>, t: Tables, e: Env, d: Env, w: Value, x: Operand, depth: nat)
    requires Fits(p, t) && x != Temp(w) && forall j: nat :: !UsedAt(p, w, j)
    requires forall v :: v != w && IsLeaf(t, Temp(v)) ==> Get(e, v) == Get(d, v)
    ensures ChainVal(p, t, e, x, depth) == ChainVal(p, t, d, x, depth)
    decreases MAX_DEPTH + 1 - depth
  {
    if depth <= MAX_DEPTH && !IsLeaf(t, x) {
      var i := t.defOf[x.v];
      forall y | Reads(ShapeOf(p[i]), y)
        ensures y != Temp(w)
      {
        assert !UsedAt(p, w, i);
      }
      match ShapeOf(p[i]) {
        case CopyOf(y) =>
          assert Reads(ShapeOf(p[i]), y);
          ScratchIrrelevant(p, t, e, d, w, y, depth + 1);
        case Sum(_, y, z) =>
          assert Reads(ShapeOf(p[i]), y) && Reads(ShapeOf(p[i]), z);
          ScratchIrrelevant(p, t, e, d, w, y, depth + 1);
          ScratchIrrelevant(p, t, e, d, w, z, depth + 1);
        case Product(y, _) =>
          assert Reads(ShapeOf(p[i]), y);
          ScratchIrrelevant(p, t, e, d, w, y, depth + 1);
        case Untraceable =>
      }
    }
  }

  lemma AddressSame(k: Plan, e: Env, d: Env)
    requires Ready(k) && Agree(k, e, d)
    ensures AddressIn(k, e) == AddressIn(k, d)
  {
    forall v | v != k.tmp && IsLeaf(k.t, Temp(v))
      ensures Get(e, v) == Get(d, v)
    {
      assert !Dead(k, v);
    }
    PointerDead(k);
    assert k.addr != k.tmp by {
      var o := MovedOutput(k, k.t.defOf[k.addr]);
      assert !DefinedAt(k.p, k.tmp, k.t.defOf[k.addr]);
    }
    ScratchIrrelevant(k.p, k.t, e, d, k.tmp, Temp(k.addr), 0);
  }

  /** With every link set up, the pointer holds the address of the first iteration. */
  lemma PointerSetUp(k: Plan, e: Env, d: Env, d1: Env)
    requires Ready(k) && k.addr in k.t.defOf && Agree(k, e, d) && SetUp(k, k.u, d, d1)
    ensures Agree(k, e, d1) && Get(d1, k.addr) == AddressIn(k, e)
  {
    forall v | !Dead(k, v)
      ensures Get(e, v) == Get(d1, v)
    {
      assert Get(d1, v) == Get(d, v);
    }
    AddressSame(k, e, d1);
    PlanMovable(k);
    assert ChainTemp(k, k.addr) && Tracked(k, Temp(k.addr));
  }

  /** Coming from above, the new function first runs the moved commands. */
  lemma EnterLoop(k: Plan, I: Interp, e: Env, d: Env, mem: Mem)
    requires Ready(k) && k.addr in k.t.defOf && Agree(k, e, d)
    ensures Match(k, At(k.start, e, mem), Run(NewCode(k), I, At(k.start, d, mem), Within(k.moved, k.start, k.back)))
  {
    var d1 := EnvBelow(k, d, k.u);
    FrontSetsUp(k, d, k.u);
    PointerSetUp(k, e, d, d1);
    AtTheTop(k, e, d1);
    MovedInFront(k);
    FrontRuns(k.p, NewCode(k), I, k.moved, k.start, k.u, d, mem);
    MovedBelowUpdate(k);
  }

  lemma MovedBelowUpdate(k: Plan)
    requires Ready(k)
    ensures Within(k.moved, k.start, k.back) == Within(k.moved, k.start + 1, k.u)
  {
    PlanMovable(k);
    AllWithin(k.moved, k.start, k.u, k.back);
  }

  lemma AllWithin(s: set<nat>, lo: nat, mid: nat, hi: nat)
    requires lo < mid <= hi && forall d :: d in s ==> lo < d < mid
    ensures Within(s, lo, hi) == Within(s, lo + 1, mid)
  {
    WithinSplits(s, lo + 1, mid, hi);
    WithinSplits(s, lo, lo + 1, hi);
    NoneWithin(s, mid, hi);
    NoneWithin(s, lo, lo + 1);
  }

  lemma {:induction false} NoneWithin(s: set<nat>, lo: nat, hi: nat)
    requires forall d :: d in s ==> !(lo <= d < hi)
    ensures Within(s, lo, hi) == 0
    decreases hi
  {
    if lo < hi {
      NoneWithin(s, lo, hi - 1);
    }
  }

  // ---- whole runs ----

  /** Steps the new function takes while the old one takes one. */
  lemma StepMatches(k: Plan, I: Interp, c: Config, d: Config, s: Config) returns (m: nat, r: Config)
    requires Ready(k) && k.addr in k.t.defOf && Match(k, c, d) && s == Step(k.p, I, c)
    ensures r == Run(NewCode(k), I, d, m) && Match(k, s, r)
    ensures m == 0 ==> c.At? && c.pc < |k.p| && s.At? && s.pc == c.pc + 1
  {
    if !c.At? || c.pc >= |k.p| {
      m, r := 1, Step(NewCode(k), I, d);
      StoppedMatches(k, I, c, d);
      OneMore(NewCode(k), I, d, 0);
    } else if k.start <= c.pc <= k.back {
      m, r := LoopMatches(k, I, c, d, s);
    } else {
      m, r := OutsideOrEnter(k, I, c, d, s);
    }
  }

  lemma StoppedMatches(k: Plan, I: Interp, c: Config, d: Config)
    requires Ready(k) && k.addr in k.t.defOf && Match(k, c, d) && (c.At? ==> c.pc >= |k.p|)
    ensures Match(k, Step(k.p, I, c), Step(NewCode(k), I, d))
  {
    if c.At? {
      PastTheEnd(k, c.pc);
    }
  }

  lemma LoopMatches(k: Plan, I: Interp, c: Config, d: Config, s: Config) returns (m: nat, r: Config)
    requires Ready(k) && k.addr in k.t.defOf && Match(k, c, d) && s == Step(k.p, I, c)
    requires c.At? && k.start <= c.pc <= k.back < |k.p|
    ensures r == Run(NewCode(k), I, d, m) && Match(k, s, r)
    ensures m == 0 ==> s.At? && s.pc == c.pc + 1
  {
    assert c == At(c.pc, c.env, c.mem) && d == At(NewPos(k, c.pc), d.env, c.mem);
    if c.pc == k.back {
      BackStep(k, I, c.env, d.env, c.mem);
      m, r := 3, Run(NewCode(k), I, d, 3);
    } else if c.pc in k.moved {
      MovedStep(k, I, c.pc, c.env, d.env, c.mem);
      m, r := 0, d;
    } else {
      StayMatches(k, I, c, d);
      m, r := 1, Step(NewCode(k), I, d);
      OneMore(NewCode(k), I, d, 0);
    }
  }

  lemma StayMatches(k: Plan, I: Interp, c: Config, d: Config)
    requires Ready(k) && k.addr in k.t.defOf && Match(k, c, d)
    requires c.At? && k.start <= c.pc < k.back && c.pc !in k.moved
    ensures Match(k, Step(k.p, I, c), Step(NewCode(k), I, d))
  {
    assert c == At(c.pc, c.env, c.mem) && d == At(NewPos(k, c.pc), d.env, c.mem);
    if c.pc == k.start {
      LabelStep(k, I, c.env, d.env, c.mem);
    } else {
      BodyStep(k, I, c.pc, c.env, d.env, c.mem);
    }
  }

  lemma PastTheEnd(k: Plan, i: nat)
    requires Ready(k) && i >= |k.p|
    ensures NewPos(k, i) >= |NewCode(k)|
  {
    PlanMovable(k);
    NewLength(k.p, k.start, k.back, k.moved, k.addr, k.Stride(), k.tmp);
  }

  lemma OutsideOrEnter(k: Plan, I: Interp, c: Config, d: Config, s: Config) returns (m: nat, r: Config)
    requires Ready(k) && k.addr in k.t.defOf && Match(k, c, d) && c.At? && c.pc < |k.p| && !(k.start <= c.pc <= k.back)
    requires s == Step(k.p, I, c)
    ensures r == Run(NewCode(k), I, d, m) && Match(k, s, r) && m > 0
  {
    var r1 := OutsideConfig(k, I, c, d, s);
    var n: nat;
    n, r := EnterIfThere(k, I, s, r1);
    m := 1 + n;
    OneMore(NewCode(k), I, d, n);
  }

  lemma OutsideConfig(k: Plan, I: Interp, c: Config, d: Config, s: Config) returns (r: Config)
    requires Ready(k) && k.addr in k.t.defOf && Match(k, c, d) && c.At? && c.pc < |k.p| && !(k.start <= c.pc <= k.back)
    requires s == Step(k.p, I, c)
    ensures r == Step(NewCode(k), I, d) && MatchOrEnter(k, s, r)
  {
    assert c == At(c.pc, c.env, c.mem) && d == At(NewPos(k, c.pc), d.env, c.mem);
    OutsideStep(k, I, c.pc, c.env, d.env, c.mem);
    r := Step(NewCode(k), I, d);
  }

  lemma EnterIfThere(k: Plan, I: Interp, s: Config, r: Config) returns (n: nat, r1: Config)
    requires Ready(k) && k.addr in k.t.defOf && MatchOrEnter(k, s, r)
    ensures r1 == Run(NewCode(k), I, r, n) && Match(k, s, r1)
  {
    n, r1 := 0, r;
    if s.At? && s.pc == k.start {
      EnterLoop(k, I, s.env, r.env, s.mem);
      n := Within(k.moved, k.start, k.back);
      r1 := Run(NewCode(k), I, r, n);
    }
  }

  lemma OneMore(q: seq<Cmd>, I: Interp, d: Config, n: nat)
    ensures Run(q, I, d, 1 + n) == Run(q, I, Step(q, I, d), n)
  {
    RunAdds(q, I, d, 1, n);
  }

  /** The two functions as they start, with environments that agree where it matters. */
  lemma StartsMatch(k: Plan, I: Interp, e: Env, d: Env, mem: Mem) returns (m: nat)
    requires Ready(k) && k.addr in k.t.defOf && Agree(k, e, d)
    ensures Match(k, At(0, e, mem), Run(NewCode(k), I, At(0, d, mem), m))
  {
    if k.start == 0 {
      EnterLoop(k, I, e, d, mem);
      m := Within(k.moved, k.start, k.back);
    } else {
      m := 0;
    }
  }

  /** The new function's run so far, as seen from the old one. */
  datatype Progress = Progress(n: nat, s: Config, m: nat, r: Config)

  ghost predicate Follows(p: seq<Cmd>, q: seq<Cmd>, I: Interp, c: Config, c1: Config, g: Progress) {
    g.s == Run(p, I, c, g.n) && g.r == Run(q, I, c1, g.m) && Paced(p, g.s, g.n, g.m)
  }

  lemma {:induction false} RunsMatch(k: Plan, I: Interp, c: Config, c1: Config, m0: nat, n: nat) returns (g: Progress)
    requires Ready(k) && k.addr in k.t.defOf && Match(k, c, Run(NewCode(k), I, c1, m0))
    ensures Follows(k.p, NewCode(k), I, c, c1, g) && g.n == n && Match(k, g.s, g.r)
  {
    if n == 0 {
      g := Progress(0, c, m0, Run(NewCode(k), I, c1, m0));
    } else {
      var g0 := RunsMatch(k, I, c, c1, m0, n - 1);
      var more, r := StepMatches(k, I, g0.s, g0.r, Step(k.p, I, g0.s));
      g := Progress(n, Step(k.p, I, g0.s), g0.m + more, r);
      FollowsOn(k.p, NewCode(k), I, c, c1, g0, more, r);
    }
  }

  lemma FollowsOn(p: seq<Cmd>, q: seq<Cmd>, I: Interp, c: Config, c1: Config, g: Progress, more: nat, r: Config)
    requires Follows(p, q, I, c, c1, g) && r == Run(q, I, g.r, more) && |p| > 0
    requires more == 0 ==> g.s.At? && g.s.pc < |p| && Step(p, I, g.s).At? && Step(p, I, g.s).pc == g.s.pc + 1
    ensures Follows(p, q, I, c, c1, Progress(g.n + 1, Step(p, I, g.s), g.m + more, r))
  {
    RunsOn(q, I, c1, g.m, g.r, more, r);
    NextPace(p, I, g.s, Step(p, I, g.s), g.n, g.m, more);
  }

  lemma RunsOn(q: seq<Cmd>, I: Interp, c: Config, m: nat, r0: Config, more: nat, r: Config)
    requires r0 == Run(q, I, c, m) && r == Run(q, I, r0, more)
    ensures r == Run(q, I, c, m + more)
  {
    RunAdds(q, I, c, m, more);
  }

  lemma NextPace(p: seq<Cmd>, I: Interp, c: Config, s: Config, n: nat, m: nat, more: nat)
    requires Paced(p, c, n, m) && |p| > 0 && s == Step(p, I, c)
    requires more == 0 ==> c.At? && c.pc < |p| && s.At? && s.pc == c.pc + 1
    ensures Paced(p, s, n + 1, m + more)
  {
    LapsAdd(|p|, m, more);
  }

  /** Strength reduction keeps the memory trace: after any number of steps of the
      original function, a number of steps of the rewritten one that grows with it
      reaches the same memory, with the same loads and stores in the same order, and
      the same result if the function has returned. */
  lemma ReducedRunIsSame(k: Plan, I: Interp, e: Env, mem: Mem, n: nat)
    requires Ready(k)
    ensures exists m: nat :: SameOutcome(Run(k.p, I, At(0, e, mem), n), Run(NewCode(k), I, At(0, e, mem), m))
                             && n <= |k.p| * m + |k.p|
  {
    PlanMovable(k);
    var m0 := StartsMatch(k, I, e, e, mem);
    var g := RunsMatch(k, I, At(0, e, mem), At(0, e, mem), m0, n);
    LapsIsProduct(|k.p|, g.m);
    assert SameOutcome(g.s, g.r);
  }

  ghost predicate SameOutcome(c: Config, d: Config) {
    d.mem == c.mem && (c.At? <==> d.At?) && (!c.At? ==> d == c)
  }

  function Lead(p: seq<Cmd>, c: Config): nat {
    if c.At? && c.pc < |p| then c.pc else |p|
  }

  /** `laps` times `len`. */
  function Laps(len: nat, laps: nat): nat {
    if laps == 0 then 0 else len + Laps(len, laps - 1)
  }

  lemma {:induction false} LapsAdd(len: nat, a: nat, b: nat)
    ensures Laps(len, a + b) == Laps(len, a) + Laps(len, b)
    ensures b > 0 ==> Laps(len, b) >= len
  {
    if b > 0 {
      LapsAdd(len, a, b - 1);
    }
  }

  lemma {:induction false} LapsIsProduct(len: nat, a: nat)
    ensures Laps(len, a) == len * a
  {
    if a > 0 {
      LapsIsProduct(len, a - 1);
    }
  }

  /** How far the old function can get ahead of the new one. */
  ghost predicate Paced(p: seq<Cmd>, c: Config, n: nat, m: nat) {
    n <= Laps(|p|, m) + Lead(p, c)
  }
}
