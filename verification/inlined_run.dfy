/** The caller with calls replaced runs like the caller that makes the calls. */
module InlinedRun {
  import opened IL
  import opened SameCommands
  import opened Liveness
  import opened InlineBodies
  import opened InlineCalls
  import opened InlinedLayout

  // ---- calls that run the callee's captured body ----

  /** The caller on its own, or suspended at call `site` while the callee runs. */
  datatype World = Outside(c: Config) | Inside(site: nat, env: Env, callee: Config)

  /** The environment a callee starts with: its parameters, and nothing else. */
  function BindAll(params: seq<Value>, xs: seq<int>, k: nat): Env
    requires k <= |params| == |xs|
  {
    if k == 0 then map[] else BindAll(params, xs, k - 1)[params[k - 1] := xs[k - 1]]
  }

  function EnterCall(I: Interp, b: InlineBody, c: Cmd, env: Env, mem: Mem): Config
    requires c.Call? && |c.args| == |b.params|
  {
    At(0, BindAll(b.params, EvalAll(I, env, mem, c.args), |b.params|), mem)
  }

  function WorldStep(p: seq<Cmd>, table: Table, I: Interp, w: World): World {
    match w
    case Outside(c) =>
      if c.At? && c.pc < |p| && CalleeOf(table, p[c.pc]).Some?
      then Inside(c.pc, c.env, EnterCall(I, CalleeOf(table, p[c.pc]).value, p[c.pc], c.env, c.mem))
      else Outside(Step(p, I, c))
    case Inside(site, env, callee) =>
      if site < |p| && CalleeOf(table, p[site]).Some? then
        if callee.At? then Inside(site, env, Step(CalleeOf(table, p[site]).value.ops, I, callee))
        else if callee.Returned? && |callee.result| == 1 then
          var (env1, mem1) := WriteOne(I, env, callee.mem, p[site].ret[0], callee.result[0]);
          Outside(At(site + 1, env1, mem1))
        else w
      else w
  }

  function WorldRun(p: seq<Cmd>, table: Table, I: Interp, w: World, n: nat): World {
    if n == 0 then w else WorldStep(p, table, I, WorldRun(p, table, I, w, n - 1))
  }

  /** The callee fell off its end, jumped to a missing label, or returned no value. */
  predicate Stuck(w: World) {
    w.Inside? && (w.callee.FellOff? || w.callee.NoTarget? || (w.callee.Returned? && |w.callee.result| != 1))
  }

  // ---- values a body reads before writing ----

  function UsesOf(ops: seq<Cmd>): (r: seq<seq<Value>>)
    ensures |r| == |ops|
  {
    seq(|ops|, i requires 0 <= i < |ops| => Uses(ops[i]))
  }

  function DefsOf(ops: seq<Cmd>): (r: seq<seq<Value>>)
    ensures |r| == |ops|
  {
    seq(|ops|, i requires 0 <= i < |ops| => Defs(ops[i]))
  }

  ghost predicate LiveIn(ops: seq<Cmd>, j: nat, v: Value) {
    j < |ops| && LiveAt(ops, UsesOf(ops), DefsOf(ops), j, v)
  }

  lemma ReadIsLive(ops: seq<Cmd>, j: nat, v: Value)
    requires j < |ops| && Temp(v) in Inputs(ops[j])
    ensures LiveIn(ops, j, v)
  {
    UseIsLive(ops, UsesOf(ops), DefsOf(ops), j, v);
  }

  lemma LiveBack(ops: seq<Cmd>, j: nat, t: nat, v: Value)
    requires j < |ops| && t in Succ(ops, j) && LiveIn(ops, t, v) && Temp(v) !in Outputs(ops[j])
    ensures LiveIn(ops, j, v)
  {
    LiveThrough(ops, UsesOf(ops), DefsOf(ops), j, t, v);
  }

  /** No local of the body is read before it is written. */
  ghost predicate ReadsOnlyParams(b: InlineBody) {
    forall v :: LiveIn(b.ops, 0, v) ==> v in b.params
  }

  // ---- the relation ----

  /** Caller values: everything below the first fresh one. */
  ghost predicate Agree(values: nat, e: Env, d: Env) {
    forall v: Value {:trigger Get(d, v)} :: v.id < values ==> Get(e, v) == Get(d, v)
  }

  /** The copies hold what the callee's values hold, as far as they will be read. */
  ghost predicate CopiesAgree(s: Splice, j: nat, callee: Env, d: Env) {
    forall v {:trigger LiveIn(s.b.ops, j, v)} :: LiveIn(s.b.ops, j, v) && v in s.remap ==> Get(d, s.remap[v]) == Get(callee, v)
  }

  /** All that stays fixed during a run. */
  datatype Setting = Setting(p: seq<Cmd>, table: Table, plan: Plan, values: nat, labels: nat)

  ghost predicate Ready(k: Setting) {
    && Plans(k.p, k.table, k.plan) && FreshPlan(k.plan, k.values, k.labels) && Below(k.p, k.values, k.labels)
    && (forall i: nat :: i < |k.plan| && k.plan[i].Some? ==> ReadsOnlyParams(k.plan[i].value.b))
  }

  function Code(k: Setting): seq<Cmd>
    requires |k.p| == |k.plan|
  {
    Inlined(k.p, k.plan)
  }

  ghost predicate InsideMatch(k: Setting, I: Interp, site: nat, env: Env, callee: Config, d: Config)
    requires Site(k.p, k.table, k.plan, site)
  {
    var s := k.plan[site].value;
    match callee
    case At(j, cenv, mem) =>
      d.At? && j <= |s.b.ops| && d.pc == BodyPos(k.p, k.plan, site, j) && d.mem == mem
      && Agree(k.values, env, d.env) && CopiesAgree(s, j, cenv, d.env)
    case Returned(result, mem) =>
      |result| == 1 ==>
        var (env1, mem1) := WriteOne(I, env, mem, k.p[site].ret[0], result[0]);
        d.At? && d.pc == Start(k.p, k.plan, site + 1) - 1 && d.mem == mem1 && Agree(k.values, env1, d.env)
    case _ => true
  }

  ghost predicate OutsideMatch(k: Setting, c: Config, d: Config)
    requires |k.p| == |k.plan|
  {
    match c
    case At(pc, env, mem) =>
      pc <= |k.p| && d.At? && d.pc == Start(k.p, k.plan, pc) && d.mem == mem && Agree(k.values, env, d.env)
    case _ => d == c
  }

  ghost predicate Match(k: Setting, I: Interp, w: World, d: Config)
    requires |k.p| == |k.plan|
  {
    match w
    case Outside(c) => OutsideMatch(k, c, d)
    case Inside(site, env, callee) => Site(k.p, k.table, k.plan, site) && InsideMatch(k, I, site, env, callee, d)
  }

  // ---- outside a callee ----

  lemma BelowInputs(k: Setting, I: Interp, i: nat, e: Env, d: Env, mem: Mem)
    requires Below(k.p, k.values, k.labels) && i < |k.p| && Agree(k.values, e, d)
    ensures SameInputs(I, k.p[i], e, d, mem)
  {
    assert ValuesBelow(k.p[i], k.values);
    forall o | o in Inputs(k.p[i])
      ensures Eval(I, e, mem, o) == Eval(I, d, mem, o)
    {
    }
  }

  lemma CallerJump(k: Setting, i: nat, e: Env, d: Env, mem: Mem)
    requires Ready(k) && i < |k.p| && IsJump(k.p[i]) && Agree(k.values, e, d)
    ensures OutsideMatch(k, Goto(k.p, k.p[i].target, e, mem), Goto(Code(k), k.p[i].target, d, mem))
  {
    assert LabelBelow(k.p[i], k.labels);
    CallerTargets(k.p, k.table, k.plan, k.values, k.labels, k.p[i].target);
  }

  lemma AgreeAfter(values: nat, os: seq<Operand>, e: Env, e1: Env, d: Env, d1: Env)
    requires Agree(values, e, d) && SameWrites(os, e, e1, d, d1)
    ensures Agree(values, e1, d1)
  {
    forall v: Value | v.id < values
      ensures Get(e1, v) == Get(d1, v)
    {
      if Temp(v) !in os {
        assert Get(e1, v) == Get(e, v) && Get(d1, v) == Get(d, v);
      }
    }
  }

  /** A command that is not replaced. */
  lemma KeptStep(k: Setting, I: Interp, i: nat, e: Env, d: Env, mem: Mem)
    requires Ready(k) && i < |k.p| && k.plan[i].None? && Agree(k.values, e, d)
    ensures OutsideMatch(k, Step(k.p, I, At(i, e, mem)), Step(Code(k), I, At(Start(k.p, k.plan, i), d, mem)))
  {
    KeptAt(k.p, k.plan, i);
    BelowInputs(k, I, i, e, d, mem);
    SameCommand(k.p, Code(k), I, i, Start(k.p, k.plan, i), e, d, mem);
    if Taken(I, k.p[i], e, mem) {
      CallerJump(k, i, e, d, mem);
    } else {
      KeptFallsThrough(k, i, e, d, Step(k.p, I, At(i, e, mem)), Step(Code(k), I, At(Start(k.p, k.plan, i), d, mem)));
    }
  }

  lemma KeptFallsThrough(k: Setting, i: nat, e: Env, d: Env, s: Config, r: Config)
    requires i < |k.p| == |k.plan| && Agree(k.values, e, d) && Start(k.p, k.plan, i + 1) == Start(k.p, k.plan, i) + 1
    requires StepsAlike(k.p[i], i, Start(k.p, k.plan, i), e, d, s, r)
    ensures OutsideMatch(k, s, r)
  {
    if s.At? {
      AgreeAfter(k.values, Outputs(k.p[i]), e, s.env, d, r.env);
    }
  }

  // ---- entering a callee ----

  /** The environment after the first `n` bindings. */
  function Bound(binds: seq<Value>, xs: seq<int>, d: Env, n: nat): Env
    requires n <= |binds| == |xs|
  {
    if n == 0 then d else Bound(binds, xs, d, n - 1)[binds[n - 1] := xs[n - 1]]
  }

  lemma {:induction false} BoundAgrees(values: nat, binds: seq<Value>, xs: seq<int>, e: Env, d: Env, n: nat)
    requires n <= |binds| == |xs| && Agree(values, e, d) && forall b :: b in binds ==> values <= b.id
    ensures Agree(values, e, Bound(binds, xs, d, n))
  {
    if n > 0 {
      BoundAgrees(values, binds, xs, e, d, n - 1);
      assert binds[n - 1] in binds;
      forall v: Value | v.id < values
        ensures Get(e, v) == Get(Bound(binds, xs, d, n), v)
      {
        assert Get(e, v) == Get(Bound(binds, xs, d, n - 1), v);
      }
    }
  }

  lemma {:induction false} LastBindIn(params: seq<Value>, binds: seq<Value>, n: nat, v: Value)
    requires n <= |params| == |binds| && v in params[..n]
    ensures LastBind(params, binds, n, v) in binds[..n]
  {
    if params[n - 1] == v {
      assert binds[..n][n - 1] == binds[n - 1];
    } else {
      assert params[..n] == params[..n - 1] + [params[n - 1]];
      LastBindIn(params, binds, n - 1, v);
      assert binds[..n] == binds[..n - 1] + [binds[n - 1]];
    }
  }

  /** Each parameter's copy holds the parameter's value. */
  lemma {:induction false} BoundHolds(params: seq<Value>, binds: seq<Value>, xs: seq<int>, d: Env, n: nat, v: Value)
    requires n <= |params| == |binds| == |xs| && Distinct(binds) && v in params[..n]
    ensures Get(Bound(binds, xs, d, n), LastBind(params, binds, n, v)) == Get(BindAll(params, xs, n), v)
  {
    if params[n - 1] != v {
      assert params[..n] == params[..n - 1] + [params[n - 1]];
      BoundHolds(params, binds, xs, d, n - 1, v);
      LastBindIn(params, binds, n - 1, v);
      var w := LastBind(params, binds, n - 1, v);
      var i :| 0 <= i < n - 1 && binds[..n - 1][i] == w;
      assert binds[i] == w && w != binds[n - 1];
    }
  }

  /** Command `start + n` binds the `n`-th copy, and reads the `n`-th argument's value. */
  ghost predicate BindsAt(q: seq<Cmd>, I: Interp, start: nat, binds: seq<Value>, args: seq<Operand>, xs: seq<int>, d: Env, mem: Mem, n: nat) {
    n < |args| == |binds| == |xs| ==>
      && start + n < |q| && q[start + n] == Set(Temp(binds[n]), args[n])
      && Eval(I, Bound(binds, xs, d, n), mem, args[n]) == xs[n]
  }

  ghost predicate AllBind(q: seq<Cmd>, I: Interp, start: nat, binds: seq<Value>, args: seq<Operand>, xs: seq<int>, d: Env, mem: Mem) {
    |args| == |binds| == |xs| && forall n: nat :: BindsAt(q, I, start, binds, args, xs, d, mem, n)
  }

  /** The bindings run one after the other. */
  lemma {:induction false} SetsRun(q: seq<Cmd>, I: Interp, start: nat, binds: seq<Value>, args: seq<Operand>, xs: seq<int>,
                                   d: Env, mem: Mem, n: nat)
    requires AllBind(q, I, start, binds, args, xs, d, mem) && n <= |args|
    ensures Run(q, I, At(start, d, mem), n) == At(start + n, Bound(binds, xs, d, n), mem)
  {
    if n > 0 {
      SetsRun(q, I, start, binds, args, xs, d, mem, n - 1);
      assert BindsAt(q, I, start, binds, args, xs, d, mem, n - 1);
    }
  }

  /** Arguments are read as the call reads them, whatever has been bound before. */
  lemma SiteBinds(k: Setting, I: Interp, site: nat, e: Env, d: Env, mem: Mem)
    requires Ready(k) && Site(k.p, k.table, k.plan, site) && Agree(k.values, e, d)
    ensures AllBind(Code(k), I, Start(k.p, k.plan, site), k.plan[site].value.binds, k.p[site].args,
                    EvalAll(I, e, mem, k.p[site].args), d, mem)
  {
    var s, xs := k.plan[site].value, EvalAll(I, e, mem, k.p[site].args);
    assert FreshAt(k.plan, k.values, k.labels, site);
    forall n: nat
      ensures BindsAt(Code(k), I, Start(k.p, k.plan, site), s.binds, k.p[site].args, xs, d, mem, n)
    {
      if n < |xs| {
        BindingAt(k.p, k.table, k.plan, site, n);
        BoundAgrees(k.values, s.binds, xs, e, d, n);
        BelowInputs(k, I, site, e, Bound(s.binds, xs, d, n), mem);
        assert k.p[site].args[n] in Inputs(k.p[site]);
      }
    }
  }

  lemma EnterAgrees(k: Setting, site: nat, xs: seq<int>, e: Env, d: Env)
    requires Ready(k) && Site(k.p, k.table, k.plan, site) && |xs| == |k.p[site].args| && Agree(k.values, e, d)
    ensures var s := k.plan[site].value;
            && |s.b.params| == |xs|
            && Agree(k.values, e, Bound(s.binds, xs, d, |xs|))
            && CopiesAgree(s, 0, BindAll(s.b.params, xs, |xs|), Bound(s.binds, xs, d, |xs|))
  {
    var s := k.plan[site].value;
    assert FreshAt(k.plan, k.values, k.labels, site);
    BoundAgrees(k.values, s.binds, xs, e, d, |xs|);
    forall v {:trigger LiveIn(s.b.ops, 0, v)} | LiveIn(s.b.ops, 0, v) && v in s.remap
      ensures Get(Bound(s.binds, xs, d, |xs|), s.remap[v]) == Get(BindAll(s.b.params, xs, |xs|), v)
    {
      assert ReadsOnlyParams(s.b);
      assert s.b.params[..|xs|] == s.b.params;
      BoundHolds(s.b.params, s.binds, xs, d, |xs|, v);
    }
  }

  /** A replaced call: the copies are bound while the caller's world enters the callee. */
  lemma CallStep(k: Setting, I: Interp, site: nat, e: Env, d: Env, mem: Mem) returns (r: Config)
    requires Ready(k) && Site(k.p, k.table, k.plan, site) && Agree(k.values, e, d)
    ensures r == Run(Code(k), I, At(Start(k.p, k.plan, site), d, mem), |k.p[site].args|)
    ensures InsideMatch(k, I, site, e, EnterCall(I, k.plan[site].value.b, k.p[site], e, mem), r)
  {
    var xs := EvalAll(I, e, mem, k.p[site].args);
    SiteBinds(k, I, site, e, d, mem);
    SetsRun(Code(k), I, Start(k.p, k.plan, site), k.plan[site].value.binds, k.p[site].args, xs, d, mem, |xs|);
    EnterAgrees(k, site, xs, e, d);
    r := At(Start(k.p, k.plan, site) + |xs|, Bound(k.plan[site].value.binds, xs, d, |xs|), mem);
  }

  // ---- a cloned command ----

  ghost predicate Names(s: Splice, values: nat) {
    && Injective(s.remap) && (forall v :: v in s.remap ==> values <= s.remap[v].id)
    && (forall c, v :: c in s.b.ops && Mentions(c, v) ==> v in s.remap)
  }

  ghost predicate CloneEffect(s: Splice, values: nat, os: seq<Operand>, c: Env, c1: Env, d: Env, d1: Env) {
    && (forall v {:trigger Get(c1, v)} :: v in s.remap && Temp(v) in os ==> Get(d1, s.remap[v]) == Get(c1, v))
    && (forall v {:trigger Get(c1, v)} :: v in s.remap && Temp(v) !in os ==>
          Get(d1, s.remap[v]) == Get(d, s.remap[v]) && Get(c1, v) == Get(c, v))
    && (forall u: Value {:trigger Get(d1, u)} :: u.id < values ==> Get(d1, u) == Get(d, u))
  }

  lemma {:induction false} CloneWrites(I: Interp, s: Splice, values: nat, os: seq<Operand>, xs: seq<int>, c: Env, d: Env, mem: Mem)
    requires Names(s, values) && forall v :: Temp(v) in os ==> v in s.remap
    ensures WriteAll(I, d, mem, RenamedAll(s.remap, os), xs).1 == WriteAll(I, c, mem, os, xs).1
    ensures CloneEffect(s, values, os, c, WriteAll(I, c, mem, os, xs).0, d, WriteAll(I, d, mem, RenamedAll(s.remap, os), xs).0)
    decreases |os|
  {
    if os != [] {
      var x := if xs == [] then 0 else xs[0];
      assert RenamedAll(s.remap, os)[1..] == RenamedAll(s.remap, os[1..]);
      var (c1, mem1) := WriteOne(I, c, mem, os[0], x);
      var (d1, _) := WriteOne(I, d, mem, RenamedOperand(s.remap, os[0]), x);
      assert forall o :: o in os <==> o == os[0] || o in os[1..];
      var rest := if xs == [] then [] else xs[1..];
      CloneWrites(I, s, values, os[1..], rest, c1, d1, mem1);
      var c2, d2 := WriteAll(I, c1, mem1, os[1..], rest).0, WriteAll(I, d1, mem1, RenamedAll(s.remap, os[1..]), rest).0;
      OneClone(s, values, os[0], x, c, c1, d, d1);
      EffectThen(s, values, os[0], os[1..], c, c1, c2, d, d1, d2);
      assert os == [os[0]] + os[1..];
    }
  }

  lemma OneClone(s: Splice, values: nat, o: Operand, x: int, c: Env, c1: Env, d: Env, d1: Env)
    requires Names(s, values) && (o.Temp? ==> o.v in s.remap)
    requires c1 == (if o.Temp? then c[o.v := x] else c) && d1 == (if o.Temp? then d[s.remap[o.v] := x] else d)
    ensures CloneEffect(s, values, [o], c, c1, d, d1)
  {
    forall v | v in s.remap
      ensures Temp(v) in [o] ==> Get(d1, s.remap[v]) == Get(c1, v)
      ensures Temp(v) !in [o] ==> Get(d1, s.remap[v]) == Get(d, s.remap[v]) && Get(c1, v) == Get(c, v)
    {
      assert Temp(v) in [o] <==> o == Temp(v);
      if o.Temp? && v != o.v {
        assert s.remap[v] != s.remap[o.v];
      }
    }
    forall u: Value | u.id < values
      ensures Get(d1, u) == Get(d, u)
    {
      if o.Temp? {
        assert s.remap[o.v] != u;
      }
    }
  }

  lemma EffectThen(s: Splice, values: nat, o: Operand, os: seq<Operand>, c: Env, c1: Env, c2: Env, d: Env, d1: Env, d2: Env)
    requires CloneEffect(s, values, [o], c, c1, d, d1) && CloneEffect(s, values, os, c1, c2, d1, d2)
    ensures CloneEffect(s, values, [o] + os, c, c2, d, d2)
  {
    forall v | v in s.remap
      ensures Temp(v) in [o] + os ==> Get(d2, s.remap[v]) == Get(c2, v)
      ensures Temp(v) !in [o] + os ==> Get(d2, s.remap[v]) == Get(d, s.remap[v]) && Get(c2, v) == Get(c, v)
    {
      assert Temp(v) in [o] + os <==> Temp(v) in [o] || Temp(v) in os;
      assert Temp(v) !in os ==> Get(c2, v) == Get(c1, v);
    }
    forall u: Value | u.id < values
      ensures Get(d2, u) == Get(d, u)
    {
      assert Get(d2, u) == Get(d1, u);
    }
  }

  ghost predicate SameReads(I: Interp, s: Splice, c: Cmd, cenv: Env, d: Env, mem: Mem) {
    forall o :: o in Inputs(c) ==> Eval(I, d, mem, RenamedOperand(s.remap, o)) == Eval(I, cenv, mem, o)
  }

  lemma CloneReads(I: Interp, s: Splice, values: nat, j: nat, cenv: Env, d: Env, mem: Mem)
    requires Names(s, values) && j < |s.b.ops| && CopiesAgree(s, j, cenv, d)
    ensures SameReads(I, s, s.b.ops[j], cenv, d, mem)
  {
    forall o | o in Inputs(s.b.ops[j])
      ensures Eval(I, d, mem, RenamedOperand(s.remap, o)) == Eval(I, cenv, mem, o)
    {
      if o.Temp? {
        ReadIsLive(s.b.ops, j, o.v);
        assert Mentions(s.b.ops[j], o.v);
      }
    }
  }

  lemma SameValues(I: Interp, s: Splice, os: seq<Operand>, cenv: Env, d: Env, mem: Mem)
    requires forall o :: o in os ==> Eval(I, d, mem, RenamedOperand(s.remap, o)) == Eval(I, cenv, mem, o)
    ensures EvalAll(I, d, mem, RenamedAll(s.remap, os)) == EvalAll(I, cenv, mem, os)
  {
  }

  /** A straight-line command and its clone. */
  lemma CloneStep(I: Interp, q: seq<Cmd>, s: Splice, values: nat, j: nat, i: nat, cenv: Env, d: Env, mem: Mem)
    requires Names(s, values) && j < |s.b.ops| && i < |q| && q[i] == CloneCmd(s, s.b.ops[j])
    requires !IsJump(s.b.ops[j]) && !s.b.ops[j].Return? && SameReads(I, s, s.b.ops[j], cenv, d, mem)
    ensures var c1, d1 := Step(s.b.ops, I, At(j, cenv, mem)), Step(q, I, At(i, d, mem));
            && c1.At? && c1.pc == j + 1 && d1.At? && d1.pc == i + 1 && d1.mem == c1.mem
            && CloneEffect(s, values, Outputs(s.b.ops[j]), cenv, c1.env, d, d1.env)
  {
    var c := s.b.ops[j];
    assert forall v :: Temp(v) in Outputs(c) ==> Mentions(c, v);
    SameValues(I, s, Inputs(c), cenv, d, mem);
    match c {
      case Op(code, ins, outs) =>
        var r := ExecOp(I, code, EvalAll(I, cenv, mem, ins), mem);
        CloneWrites(I, s, values, outs, r.0, cenv, d, r.1);
      case Set(out, arg) =>
        CloneWrites(I, s, values, [out], [Eval(I, cenv, mem, arg)], cenv, d, mem);
        OneWrite(I, cenv, mem, out, Eval(I, cenv, mem, arg));
        OneWrite(I, d, mem, RenamedOperand(s.remap, out), Eval(I, cenv, mem, arg));
        assert RenamedAll(s.remap, [out]) == [RenamedOperand(s.remap, out)];
        assert arg in Inputs(c);
      case Call(fn, args, ret) =>
        var r := I.call(fn, EvalAll(I, cenv, mem, args), mem);
        CloneWrites(I, s, values, ret, r.0, cenv, d, r.1);
      case _ =>
    }
  }

  lemma OneWrite(I: Interp, env: Env, mem: Mem, o: Operand, x: int)
    ensures WriteAll(I, env, mem, [o], [x]) == WriteOne(I, env, mem, o, x)
  {
    var r := WriteOne(I, env, mem, o, x);
    assert WriteAll(I, r.0, r.1, [], []) == r;
  }

  /** Copies still hold what will be read. */
  lemma CopiesAfter(s: Splice, values: nat, j: nat, t: nat, c: Env, c1: Env, d: Env, d1: Env)
    requires j < |s.b.ops| && CopiesAgree(s, j, c, d) && CloneEffect(s, values, Outputs(s.b.ops[j]), c, c1, d, d1)
    requires t in Succ(s.b.ops, j) || t == |s.b.ops|
    ensures CopiesAgree(s, t, c1, d1)
  {
    forall v {:trigger LiveIn(s.b.ops, t, v)} | LiveIn(s.b.ops, t, v) && v in s.remap
      ensures Get(d1, s.remap[v]) == Get(c1, v)
    {
      if Temp(v) !in Outputs(s.b.ops[j]) {
        LiveBack(s.b.ops, j, t, v);
        assert Get(c1, v) == Get(c, v);
      }
    }
  }

  lemma CopiesKept(s: Splice, values: nat, j: nat, t: nat, c: Env, d: Env)
    requires j < |s.b.ops| && IsJump(s.b.ops[j]) && CopiesAgree(s, j, c, d) && (t in Succ(s.b.ops, j) || t == |s.b.ops|)
    ensures CopiesAgree(s, t, c, d)
  {
    forall v {:trigger LiveIn(s.b.ops, t, v)} | LiveIn(s.b.ops, t, v) && v in s.remap
      ensures Get(d, s.remap[v]) == Get(c, v)
    {
      LiveBack(s.b.ops, j, t, v);
    }
  }

  // ---- one step of the callee ----

  lemma SiteNames(k: Setting, site: nat)
    requires Ready(k) && Site(k.p, k.table, k.plan, site)
    ensures Names(k.plan[site].value, k.values)
    ensures forall c :: c in k.plan[site].value.b.ops && LabelOf(c).Some? ==> LabelOf(c).value in k.plan[site].value.labels
  {
    assert FreshAt(k.plan, k.values, k.labels, site);
  }

  /** The callee at command `j`, the inlined code at its clone. */
  ghost predicate AtClone(k: Setting, site: nat, e: Env, j: nat, cenv: Env, d: Env) {
    && Site(k.p, k.table, k.plan, site) && j < |k.plan[site].value.b.ops|
    && Agree(k.values, e, d) && CopiesAgree(k.plan[site].value, j, cenv, d)
  }

  function OpAt(k: Setting, site: nat, j: nat): Cmd
    requires site < |k.plan| && k.plan[site].Some? && j < |k.plan[site].value.b.ops|
  {
    k.plan[site].value.b.ops[j]
  }

  lemma CloneAt(k: Setting, site: nat, j: nat)
    requires Site(k.p, k.table, k.plan, site) && j < |k.plan[site].value.b.ops|
    requires !(OpAt(k, site, j).Return? && |OpAt(k, site, j).result| == 1)
    ensures var i := BodyPos(k.p, k.plan, site, j);
            && i < |Code(k)| && Code(k)[i] == CloneCmd(k.plan[site].value, OpAt(k, site, j))
            && BodyPos(k.p, k.plan, site, j + 1) == i + 1
  {
    BodyAt(k.p, k.table, k.plan, site, j, 0);
  }

  lemma StraightStep(k: Setting, I: Interp, site: nat, e: Env, j: nat, cenv: Env, d: Env, mem: Mem)
    requires Ready(k) && AtClone(k, site, e, j, cenv, d) && !IsJump(OpAt(k, site, j)) && !OpAt(k, site, j).Return?
    ensures InsideMatch(k, I, site, e, Step(k.plan[site].value.b.ops, I, At(j, cenv, mem)),
                        Step(Code(k), I, At(BodyPos(k.p, k.plan, site, j), d, mem)))
  {
    var s, i := k.plan[site].value, BodyPos(k.p, k.plan, site, j);
    SiteNames(k, site);
    CloneAt(k, site, j);
    CloneReads(I, s, k.values, j, cenv, d, mem);
    CloneStep(I, Code(k), s, k.values, j, i, cenv, d, mem);
    var c1, d1 := Step(s.b.ops, I, At(j, cenv, mem)), Step(Code(k), I, At(i, d, mem));
    StepFollowsSucc(s.b.ops, I, At(j, cenv, mem));
    CopiesAfter(s, k.values, j, j + 1, cenv, c1.env, d, d1.env);
    AgreeOn(k.values, s, Outputs(OpAt(k, site, j)), e, cenv, c1.env, d, d1.env);
  }

  lemma AgreeOn(values: nat, s: Splice, os: seq<Operand>, e: Env, c: Env, c1: Env, d: Env, d1: Env)
    requires Agree(values, e, d) && CloneEffect(s, values, os, c, c1, d, d1)
    ensures Agree(values, e, d1)
  {
    forall v: Value | v.id < values
      ensures Get(e, v) == Get(d1, v)
    {
      assert Get(d1, v) == Get(d, v) && Get(e, v) == Get(d, v);
    }
  }

  lemma JumpReads(I: Interp, s: Splice, c: Cmd, cenv: Env, d: Env, mem: Mem)
    requires IsJump(c) && SameReads(I, s, c, cenv, d, mem)
    ensures Taken(I, CloneCmd(s, c), d, mem) == Taken(I, c, cenv, mem)
  {
    if !c.Jump? {
      assert c.cond in Inputs(c);
    }
  }

  lemma JumpStep(p: seq<Cmd>, I: Interp, i: nat, e: Env, mem: Mem)
    requires i < |p| && IsJump(p[i])
    ensures Step(p, I, At(i, e, mem)) == if Taken(I, p[i], e, mem) then Goto(p, p[i].target, e, mem) else At(i + 1, e, mem)
  {
  }

  lemma BodyJump(k: Setting, I: Interp, site: nat, e: Env, j: nat, cenv: Env, d: Env, mem: Mem)
    requires Ready(k) && AtClone(k, site, e, j, cenv, d) && IsJump(OpAt(k, site, j))
    ensures InsideMatch(k, I, site, e, Step(k.plan[site].value.b.ops, I, At(j, cenv, mem)),
                        Step(Code(k), I, At(BodyPos(k.p, k.plan, site, j), d, mem)))
  {
    var s, i := k.plan[site].value, BodyPos(k.p, k.plan, site, j);
    var c := OpAt(k, site, j);
    SiteNames(k, site);
    CloneAt(k, site, j);
    CloneReads(I, s, k.values, j, cenv, d, mem);
    JumpReads(I, s, c, cenv, d, mem);
    JumpStep(s.b.ops, I, j, cenv, mem);
    JumpStep(Code(k), I, i, d, mem);
    StepFollowsSucc(s.b.ops, I, At(j, cenv, mem));
    assert c in s.b.ops;
    if Step(s.b.ops, I, At(j, cenv, mem)).At? {
      CopiesKept(s, k.values, j, Step(s.b.ops, I, At(j, cenv, mem)).pc, cenv, d);
      if Taken(I, c, cenv, mem) {
        BodyTarget(k.p, k.table, k.plan, k.values, k.labels, site, c.target);
      }
    }
  }

  /** A return: the result is stored and control goes to the end of the splice. */
  lemma BodyReturn(k: Setting, I: Interp, site: nat, e: Env, j: nat, cenv: Env, d: Env, mem: Mem)
    requires Ready(k) && AtClone(k, site, e, j, cenv, d) && OpAt(k, site, j).Return? && |OpAt(k, site, j).result| == 1
    ensures InsideMatch(k, I, site, e, Step(k.plan[site].value.b.ops, I, At(j, cenv, mem)),
                        Step(Code(k), I, Step(Code(k), I, At(BodyPos(k.p, k.plan, site, j), d, mem))))
  {
    var s, i, ret := k.plan[site].value, BodyPos(k.p, k.plan, site, j), k.p[site].ret[0];
    var c := OpAt(k, site, j);
    SiteNames(k, site);
    BodyAt(k.p, k.table, k.plan, site, j, 0);
    BodyAt(k.p, k.table, k.plan, site, j, 1);
    CloneReads(I, s, k.values, j, cenv, d, mem);
    assert c.result[0] in Inputs(c);
    var x := Eval(I, cenv, mem, c.result[0]);
    EndTarget(k.p, k.table, k.plan, k.values, k.labels, site);
    StoreAndJump(Code(k), I, i, ret, RenamedOperand(s.remap, c.result[0]), s.end, d, mem);
    ResultAgrees(k, I, site, x, e, d, mem);
    assert EvalAll(I, cenv, mem, c.result) == [x];
  }

  lemma StoreAndJump(q: seq<Cmd>, I: Interp, i: nat, ret: Operand, o: Operand, l: nat, d: Env, mem: Mem)
    requires i + 1 < |q| && q[i] == Set(ret, o) && q[i + 1] == Jump(l) && TargetIn(q, l).Some?
    ensures var r := WriteOne(I, d, mem, ret, Eval(I, d, mem, o));
            Step(q, I, Step(q, I, At(i, d, mem))) == At(TargetIn(q, l).value, r.0, r.1)
  {
  }

  lemma ResultAgrees(k: Setting, I: Interp, site: nat, x: int, e: Env, d: Env, mem: Mem)
    requires Below(k.p, k.values, k.labels) && site < |k.p| && k.p[site].Call? && |k.p[site].ret| == 1 && Agree(k.values, e, d)
    ensures var ret := k.p[site].ret[0];
            && WriteOne(I, e, mem, ret, x).1 == WriteOne(I, d, mem, ret, x).1
            && Agree(k.values, WriteOne(I, e, mem, ret, x).0, WriteOne(I, d, mem, ret, x).0)
  {
    var ret := k.p[site].ret[0];
    var e1, d1 := WriteOne(I, e, mem, ret, x).0, WriteOne(I, d, mem, ret, x).0;
    forall v: Value | v.id < k.values
      ensures Get(e1, v) == Get(d1, v)
    {
      assert Get(e, v) == Get(d, v);
    }
  }

  // ---- whole runs ----

  lemma OneStep(q: seq<Cmd>, I: Interp, d: Config)
    ensures Run(q, I, d, 1) == Step(q, I, d)
    ensures Run(q, I, d, 2) == Step(q, I, Step(q, I, d))
  {
    assert Run(q, I, d, 0) == d;
    assert Run(q, I, d, 2) == Step(q, I, Run(q, I, d, 1));
  }

  lemma InsideStep(k: Setting, I: Interp, site: nat, e: Env, callee: Config, d: Config) returns (m: nat, r: Config)
    requires Ready(k) && Site(k.p, k.table, k.plan, site) && InsideMatch(k, I, site, e, callee, d) && callee.At?
    ensures m > 0 && r == Run(Code(k), I, d, m)
    ensures InsideMatch(k, I, site, e, Step(k.plan[site].value.b.ops, I, callee), r)
  {
    var s := k.plan[site].value;
    OneStep(Code(k), I, d);
    m, r := 1, Step(Code(k), I, d);
    assert callee == At(callee.pc, callee.env, callee.mem);
    if callee.pc < |s.b.ops| {
      assert d == At(BodyPos(k.p, k.plan, site, callee.pc), d.env, callee.mem);
      assert AtClone(k, site, e, callee.pc, callee.env, d.env);
      var c := OpAt(k, site, callee.pc);
      if c.Return? {
        if |c.result| == 1 {
          BodyReturn(k, I, site, e, callee.pc, callee.env, d.env, callee.mem);
          m, r := 2, Step(Code(k), I, Step(Code(k), I, d));
        }
      } else if IsJump(c) {
        BodyJump(k, I, site, e, callee.pc, callee.env, d.env, callee.mem);
      } else {
        StraightStep(k, I, site, e, callee.pc, callee.env, d.env, callee.mem);
      }
    }
  }

  /** The end label: back in the caller. */
  lemma LeaveStep(k: Setting, I: Interp, site: nat, e: Env, callee: Config, d: Config)
    requires Ready(k) && Site(k.p, k.table, k.plan, site) && InsideMatch(k, I, site, e, callee, d)
    requires callee.Returned? && |callee.result| == 1
    ensures var (e1, mem1) := WriteOne(I, e, callee.mem, k.p[site].ret[0], callee.result[0]);
            OutsideMatch(k, At(site + 1, e1, mem1), Step(Code(k), I, d))
  {
    EndAt(k.p, k.table, k.plan, site);
  }

  lemma OutsideStep(k: Setting, I: Interp, c: Config, d: Config)
    requires Ready(k) && OutsideMatch(k, c, d) && (c.At? && c.pc < |k.p| ==> k.plan[c.pc].None?)
    ensures OutsideMatch(k, Step(k.p, I, c), Step(Code(k), I, d))
  {
    if c.At? && c.pc < |k.p| {
      assert c == At(c.pc, c.env, c.mem) && d == At(Start(k.p, k.plan, c.pc), d.env, c.mem);
      KeptStep(k, I, c.pc, c.env, d.env, c.mem);
    } else if c.At? {
      WholeLength(k.p, k.plan);
    }
  }

  /** One step of the calling program is some steps of the inlined one. */
  lemma WorldStepMatches(k: Setting, I: Interp, w: World, d: Config, w1: World) returns (m: nat, r: Config)
    requires Ready(k) && Match(k, I, w, d) && w1 == WorldStep(k.p, k.table, I, w)
    ensures r == Run(Code(k), I, d, m) && Match(k, I, w1, r)
    ensures m > 0 || (w.Outside? && w1.Inside?)
  {
    OneStep(Code(k), I, d);
    m, r := 1, Step(Code(k), I, d);
    match w {
      case Outside(c) =>
        if c.At? && c.pc < |k.p| {
          SiteOrKept(k.p, k.table, k.plan, c.pc);
        }
        if c.At? && c.pc < |k.p| && k.plan[c.pc].Some? {
          assert d == At(Start(k.p, k.plan, c.pc), d.env, c.mem);
          r := CallStep(k, I, c.pc, c.env, d.env, c.mem);
          m := |k.p[c.pc].args|;
        } else {
          OutsideStep(k, I, c, d);
        }
      case Inside(site, e, callee) =>
        if callee.At? {
          m, r := InsideStep(k, I, site, e, callee, d);
        } else if callee.Returned? && |callee.result| == 1 {
          LeaveStep(k, I, site, e, callee, d);
        }
    }
  }

  /** Entering a callee without parameters takes no step of the inlined code. */
  function Credit(w: World): nat { if w.Inside? then 1 else 0 }

  datatype Progress = Progress(n: nat, w: World, m: nat, r: Config)

  ghost predicate Follows(p: seq<Cmd>, table: Table, q: seq<Cmd>, I: Interp, w: World, d: Config, g: Progress) {
    g.w == WorldRun(p, table, I, w, g.n) && g.r == Run(q, I, d, g.m) && g.n <= 2 * g.m + Credit(g.w)
  }

  lemma FollowsOn(p: seq<Cmd>, table: Table, q: seq<Cmd>, I: Interp, w: World, d: Config, g: Progress, more: nat, r: Config)
    requires Follows(p, table, q, I, w, d, g) && r == Run(q, I, g.r, more)
    requires more > 0 || (g.w.Outside? && WorldStep(p, table, I, g.w).Inside?)
    ensures Follows(p, table, q, I, w, d, Progress(g.n + 1, WorldStep(p, table, I, g.w), g.m + more, r))
  {
    RunAdds(q, I, d, g.m, more);
  }

  lemma {:induction false} WorldRunMatches(k: Setting, I: Interp, w: World, d: Config, n: nat) returns (g: Progress)
    requires Ready(k) && Match(k, I, w, d) && w.Outside?
    ensures Follows(k.p, k.table, Code(k), I, w, d, g) && g.n == n && Match(k, I, g.w, g.r)
  {
    if n == 0 {
      g := Progress(0, w, 0, d);
    } else {
      var g0 := WorldRunMatches(k, I, w, d, n - 1);
      g := NextProgress(k, I, w, d, g0);
    }
  }

  lemma NextProgress(k: Setting, I: Interp, w: World, d: Config, g0: Progress) returns (g: Progress)
    requires Ready(k) && Follows(k.p, k.table, Code(k), I, w, d, g0) && Match(k, I, g0.w, g0.r)
    ensures Follows(k.p, k.table, Code(k), I, w, d, g) && g.n == g0.n + 1 && Match(k, I, g.w, g.r)
  {
    var w1 := WorldStep(k.p, k.table, I, g0.w);
    var more, r := WorldStepMatches(k, I, g0.w, g0.r, w1);
    g := Progress(g0.n + 1, w1, g0.m + more, r);
    FollowsOn(k.p, k.table, Code(k), I, w, d, g0, more, r);
  }

  /** What a caller can see: a finished caller has finished in the same way; a
      running one is at the same place with the same values and memory; and while a
      callee runs the inlined code runs. */
  ghost predicate SameView(k: Setting, w: World, d: Config)
    requires |k.p| == |k.plan|
  {
    match w
    case Outside(c) => OutsideMatch(k, c, d)
    case Inside(_, _, _) => Stuck(w) || d.At?
  }

  /** Replacing calls by captured bodies keeps the caller's run: whatever point the
      calling program reaches after `n` steps, the inlined one reaches it in at
      least half as many, and a finished run has the same result and memory. */
  lemma InlinedRunIsSame(k: Setting, I: Interp, e: Env, mem: Mem, n: nat)
    requires Ready(k)
    ensures exists m: nat :: SameView(k, WorldRun(k.p, k.table, I, Outside(At(0, e, mem)), n), Run(Code(k), I, At(0, e, mem), m))
                             && n <= 2 * m + 1
  {
    assert Flat(Pieces(k.p, k.plan, 0)) == [];
    var g := WorldRunMatches(k, I, Outside(At(0, e, mem)), At(0, e, mem), n);
    assert SameView(k, g.w, g.r);
  }

  // ---- bodies that always return ----

  /** Control cannot leave the body except by returning a value. */
  ghost predicate Sealed(ops: seq<Cmd>) {
    && ops != [] && (ops[|ops| - 1].Return? || ops[|ops| - 1].Jump?)
    && (forall j: nat :: j < |ops| ==> SealedAt(ops, j))
  }

  ghost predicate SealedAt(ops: seq<Cmd>, j: nat)
    requires j < |ops|
  {
    && (IsJump(ops[j]) ==> TargetIn(ops, ops[j].target).Some?)
    && (ops[j].Return? ==> |ops[j].result| == 1)
  }

  ghost predicate CalleeFine(ops: seq<Cmd>, callee: Config) {
    if callee.At? then callee.pc < |ops| else callee.Returned? && |callee.result| == 1
  }

  lemma SealedStep(ops: seq<Cmd>, I: Interp, callee: Config)
    requires Sealed(ops) && CalleeFine(ops, callee) && callee.At?
    ensures CalleeFine(ops, Step(ops, I, callee))
  {
    assert SealedAt(ops, callee.pc);
  }

  /** A sealed callee never leaves its caller stuck. */
  lemma {:induction false} SealedNeverStuck(p: seq<Cmd>, table: Table, I: Interp, c: Config, n: nat)
    requires forall i: nat :: i < |p| && CalleeOf(table, p[i]).Some? ==> Sealed(CalleeOf(table, p[i]).value.ops)
    ensures var w := WorldRun(p, table, I, Outside(c), n);
            && !Stuck(w)
            && (w.Inside? ==> w.site < |p| && CalleeOf(table, p[w.site]).Some? && CalleeFine(CalleeOf(table, p[w.site]).value.ops, w.callee))
  {
    if n > 0 {
      SealedNeverStuck(p, table, I, c, n - 1);
      var w := WorldRun(p, table, I, Outside(c), n - 1);
      if w.Inside? && w.callee.At? {
        SealedStep(CalleeOf(table, p[w.site]).value.ops, I, w.callee);
      }
    }
  }
}
