/** What the pass accepts is safe to rewrite, and the pass as a whole. */
module ReductionPass {
  import opened IL
  import opened UseCounts
  import opened AddressTrace
  import opened StrengthReduction
  import opened ReducedLoop
  import opened ReducedRun

  function ChainOf(p: seq<Cmd>, r: Reduction): set<nat>
    requires Fits(p, r.t)
  {
    Chain(p, r.t, Temp(r.addr), 0)
  }

  /** The value copied into the induction variable. */
  ghost predicate CopiesTo(p: seq<Cmd>, r: Reduction, tv: Value) {
    && r.iv in r.t.defOf && tv in r.t.defOf && r.t.defOf[r.iv] < |p|
    && p[r.t.defOf[r.iv]] == Set(Temp(r.iv), Temp(tv))
  }

  /** `v` has one definition in the body, and every use of it comes later. */
  ghost predicate OnceBeforeUse(p: seq<Cmd>, r: Reduction, v: Value)
    requires v in r.t.defOf
  {
    && (forall j: nat :: r.start < j < r.back && DefinedAt(p, v, j) ==> j == r.t.defOf[v])
    && (forall j: nat :: UsedAt(p, v, j) ==> r.t.defOf[v] < j)
  }

  /** What the pass takes for granted about the code in front of it: temporaries of
      the chain are computed once per iteration before their use, the addition
      comes ahead of the copy into the induction variable, the chain reads no value
      that memory operations could change, and `tmp` is new. */
  ghost predicate Regular(p: seq<Cmd>, r: Reduction, tmp: Value)
    requires Fits(p, r.t)
  {
    && (forall v :: v in r.t.defOf && r.t.defOf[v] in ChainOf(p, r) && Link(p, r.t, r.t.defOf[v], v) ==> OnceBeforeUse(p, r, v))
    && (forall tv :: CopiesTo(p, r, tv) ==> r.t.defOf[tv] < r.t.defOf[r.iv] && OnceInBody(p, r, tv))
    && (forall d :: d in ChainOf(p, r) ==> NothingPinned(p, d))
    && (forall j: nat :: !UsedAt(p, tmp, j)) && (forall j: nat :: !DefinedAt(p, tmp, j))
  }

  ghost predicate OnceInBody(p: seq<Cmd>, r: Reduction, v: Value)
    requires v in r.t.defOf
  {
    forall j: nat :: r.start < j < r.back && DefinedAt(p, v, j) ==> j == r.t.defOf[v]
  }

  ghost predicate NothingPinned(p: seq<Cmd>, d: nat) {
    d < |p| ==> forall y :: Reads(ShapeOf(p[d]), y) ==> !y.Pinned?
  }

  /** The sites of an accepted reduction. */
  function PlanOf(p: seq<Cmd>, r: Reduction, tmp: Value): Plan
    requires r.start < r.back < |p| && Fits(p, r.t) && AcceptedAt(p, r) && IvStep(p, r.start, r.back, r.t.defOf, r.iv).Some?
  {
    var u := r.t.defOf[r.iv];
    var tv := p[u].arg.v;
    Plan(p, r.start, r.back, r.t, r.at, r.addr, r.iv, Trace(p, r.t, Temp(r.addr), 0).value.1, r.t.ivs[r.iv],
         u, r.t.defOf[tv], tv, tmp, ChainOf(p, r))
  }

  // ---- the address ----

  lemma AccessReads(c: Cmd, v: Value)
    requires AddressOf(c) == Some(v)
    ensures Temp(v) in Inputs(c) && ShapeOf(c).Untraceable?
    ensures multiset(Uses(c))[v] == 1 ==> Temp(v) !in c.ins[1..]
  {
    assert c.ins[0] == Temp(v);
    if Temp(v) in c.ins[1..] {
      assert c.ins == [Temp(v), Temp(v)];
      assert c.ins[1..][1..] == [];
      assert Temps(c.ins[1..]) == [v] && Uses(c) == [v, v];
    }
  }

  lemma AddressUsedOnce(p: seq<Cmd>, r: Reduction)
    requires r.at < |p| && AddressOf(p[r.at]) == Some(r.addr) && UseCount(p, r.addr) == 1
    ensures UsedAt(p, r.addr, r.at) && ShapeOf(p[r.at]).Untraceable?
    ensures Temp(r.addr) !in p[r.at].ins[1..]
    ensures forall j: nat :: UsedAt(p, r.addr, j) ==> j == r.at
  {
    AccessReads(p[r.at], r.addr);
    forall j: nat | UsedAt(p, r.addr, j)
      ensures j == r.at
    {
      UsedOnce(p, r.addr, r.at, j);
    }
    UsedOnce(p, r.addr, r.at, r.at);
  }

  /** What the table says about an induction variable. */
  lemma IvSites(p: seq<Cmd>, start: nat, back: nat, defOf: map<Value, nat>, v: Value)
    requires start < back <= |p| && LastDefs(p, start + 1, back, defOf) && IvStep(p, start, back, defOf, v).Some?
    ensures v in defOf && start < defOf[v] < back && p[defOf[v]].Set? && p[defOf[v]].out == Temp(v) && p[defOf[v]].arg.Temp?
    ensures var tv := p[defOf[v]].arg.v;
            && tv in defOf && start < defOf[tv] < back && DefinedAt(p, tv, defOf[tv])
            && AddedLiteral(p[defOf[tv]], v) == IvStep(p, start, back, defOf, v)
            && UsedAt(p, v, defOf[tv]) && UsedAt(p, tv, defOf[v])
    ensures forall j: nat :: start < j < back && DefinedAt(p, v, j) ==> j == defOf[v]
  {
    var u := defOf[v];
    var tv := p[u].arg.v;
    assert Temp(tv) in Inputs(p[u]);
    AddedReads(p[defOf[tv]], v);
    assert DefinedAt(p, v, u);
    forall j: nat | start < j < back && DefinedAt(p, v, j)
      ensures j == u
    {
      DefinedOnce(p, start + 1, back, v, j, u);
    }
  }

  lemma AddedReads(c: Cmd, v: Value)
    requires AddedLiteral(c, v).Some?
    ensures Temp(v) in Inputs(c) && AddressOf(c).None?
  {
    assert c.ins[0] == Temp(v) || c.ins[1] == Temp(v);
  }

  lemma AddressNotIv(p: seq<Cmd>, r: Reduction)
    requires Accepted(p, r)
    ensures r.addr !in r.t.ivs
  {
    AddressUsedOnce(p, r);
    if r.addr in r.t.ivs {
      IvSites(p, r.start, r.back, r.t.defOf, r.addr);
      AddedReads(p[r.t.defOf[p[r.t.defOf[r.addr]].arg.v]], r.addr);
    }
  }

  lemma AddressIsLink(p: seq<Cmd>, r: Reduction)
    requires Accepted(p, r)
    ensures r.addr !in r.t.ivs && r.t.defOf[r.addr] in ChainOf(p, r) && Link(p, r.t, r.t.defOf[r.addr], r.addr)
    ensures forall j: nat :: r.start < j < r.back && DefinedAt(p, r.addr, j) ==> j == r.t.defOf[r.addr]
  {
    AddressNotIv(p, r);
    forall j: nat | r.start < j < r.back && DefinedAt(p, r.addr, j)
      ensures j == r.t.defOf[r.addr]
    {
      DefinedOnce(p, r.start + 1, r.back, r.addr, j, r.t.defOf[r.addr]);
    }
  }

  // ---- the chain ----

  lemma LinkTraceable(p: seq<Cmd>, t: Tables, d: nat, o: Value)
    requires Fits(p, t) && Link(p, t, d, o)
    ensures !ShapeOf(p[d]).Untraceable?
  {
  }

  lemma OneOutput(c: Cmd, v: Value, o: Value)
    requires !ShapeOf(c).Untraceable? && Temp(v) in Outputs(c) && Temp(o) in Outputs(c)
    ensures v == o
  {
    SingleOutput(c, v);
    SingleOutput(c, o);
    assert Outputs(c)[0] == Temp(v) == Temp(o);
  }

  /** Two links at one command compute the same value. */
  lemma SameOutput(p: seq<Cmd>, t: Tables, d: nat, v: Value, o: Value)
    requires Fits(p, t) && Link(p, t, d, v) && Link(p, t, d, o) && DefinedAt(p, v, d) && DefinedAt(p, o, d)
    ensures v == o
  {
    LinkTraceable(p, t, d, v);
    OneOutput(p[d], v, o);
  }

  lemma OtherDef(p: seq<Cmd>, r: Reduction, v: Value)
    requires Accepted(p, r) && v != r.addr && v in r.t.defOf && Link(p, r.t, r.t.defOf[v], v)
    ensures r.t.defOf[v] != r.t.defOf[r.addr]
  {
    AddressIsLink(p, r);
    if r.t.defOf[v] == r.t.defOf[r.addr] {
      SameOutput(p, r.t, r.t.defOf[v], v, r.addr);
    }
  }

  lemma ReaderOf(p: seq<Cmd>, r: Reduction, v: Value) returns (e: nat)
    requires Accepted(p, r) && v != r.addr && v in r.t.defOf && r.t.defOf[v] in ChainOf(p, r) && Link(p, r.t, r.t.defOf[v], v)
    ensures e in ChainOf(p, r) && UsedAt(p, v, e)
  {
    var d := r.t.defOf[v];
    OtherDef(p, r, v);
    ChainHasReader(p, r.t, Temp(r.addr), 0, d);
    var o: Value;
    o, e :| ReadBy(p, r.t, d, o, e, ChainOf(p, r));
    SameOutput(p, r.t, d, v, o);
    ReadsAreUses(p[e], Temp(o));
  }

  /** A chain value other than the address is used once, by a command of the chain. */
  lemma ChainUse(p: seq<Cmd>, r: Reduction, v: Value, j: nat)
    requires Accepted(p, r) && v != r.addr && v in r.t.defOf && r.t.defOf[v] in ChainOf(p, r) && Link(p, r.t, r.t.defOf[v], v)
    requires UsedAt(p, v, j)
    ensures j in ChainOf(p, r)
  {
    var e := ReaderOf(p, r, v);
    ChainCounts(p, r, v);
    UsedOnce(p, v, e, j);
  }

  lemma ChainCounts(p: seq<Cmd>, r: Reduction, v: Value)
    requires Accepted(p, r) && v in r.t.defOf && r.t.defOf[v] in ChainOf(p, r)
    ensures UseCount(p, v) == 1 && r.t.defOf[v] < r.t.defOf[r.iv]
  {
    assert DefinedAt(p, v, r.t.defOf[v]);
  }

  // ---- accepted and regular reductions are ready ----

  ghost predicate Planned(p: seq<Cmd>, r: Reduction, tmp: Value) {
    Accepted(p, r) && Regular(p, r, tmp) && IvStep(p, r.start, r.back, r.t.defOf, r.iv).Some?
  }

  lemma CopiedNotInChain(p: seq<Cmd>, r: Reduction, tv: Value)
    requires Accepted(p, r) && CopiesTo(p, r, tv)
    ensures !(r.t.defOf[tv] in ChainOf(p, r) && Link(p, r.t, r.t.defOf[tv], tv))
  {
    var u := r.t.defOf[r.iv];
    assert Temp(tv) in Inputs(p[u]) && UsedAt(p, tv, u);
    if r.t.defOf[tv] in ChainOf(p, r) && Link(p, r.t, r.t.defOf[tv], tv) {
      if tv == r.addr {
        AddressUsedOnce(p, r);
        assert false;
      } else {
        ChainUse(p, r, tv, u);
        assert false;
      }
    }
  }

  lemma PlanAlive(p: seq<Cmd>, r: Reduction, tmp: Value)
    requires Planned(p, r, tmp)
    ensures var k := PlanOf(p, r, tmp); !Dead(k, k.tv) && !Dead(k, k.iv)
  {
    var k := PlanOf(p, r, tmp);
    IvSites(p, r.start, r.back, r.t.defOf, r.iv);
    assert CopiesTo(p, r, k.tv);
    CopiedNotInChain(p, r, k.tv);
    assert UsedAt(p, k.tv, k.u) && UsedAt(p, k.iv, k.a);
  }

  lemma PlanIv(p: seq<Cmd>, r: Reduction, tmp: Value)
    requires Planned(p, r, tmp)
    ensures IvReady(PlanOf(p, r, tmp))
  {
    var k := PlanOf(p, r, tmp);
    PlanAlive(p, r, tmp);
    IvSites(p, r.start, r.back, r.t.defOf, r.iv);
    assert CopiesTo(p, r, k.tv);
  }

  lemma PlanMoved(p: seq<Cmd>, r: Reduction, tmp: Value, d: nat)
    requires Planned(p, r, tmp) && d in ChainOf(p, r)
    ensures MovedReady(PlanOf(p, r, tmp), d)
  {
    ChainIsLinks(p, r.t, Temp(r.addr), 0, d);
    var o :| Link(p, r.t, d, o);
    LinkTraceable(p, r.t, d, o);
    assert NothingPinned(p, d);
  }

  lemma PlanTemp(p: seq<Cmd>, r: Reduction, tmp: Value, v: Value)
    requires Planned(p, r, tmp) && ChainTemp(PlanOf(p, r, tmp), v)
    ensures OnlyDef(PlanOf(p, r, tmp), v, r.t.defOf[v]) && UsedInChain(PlanOf(p, r, tmp), v)
  {
    var k := PlanOf(p, r, tmp);
    assert OnceBeforeUse(p, r, v);
    forall j: nat | UsedAt(p, v, j)
      ensures j in k.moved || (j == k.at && v == k.addr)
    {
      if v == r.addr {
        AddressUsedOnce(p, r);
      } else {
        ChainUse(p, r, v, j);
      }
    }
  }

  lemma PlanChain(p: seq<Cmd>, r: Reduction, tmp: Value)
    requires Planned(p, r, tmp)
    ensures ChainReady(PlanOf(p, r, tmp))
  {
    var k := PlanOf(p, r, tmp);
    AddressIsLink(p, r);
    forall d | d in k.moved
      ensures MovedReady(k, d)
    {
      PlanMoved(p, r, tmp, d);
    }
    forall v {:trigger ChainTemp(k, v)} | ChainTemp(k, v)
      ensures OnlyDef(k, v, k.t.defOf[v]) && UsedInChain(k, v)
    {
      PlanTemp(p, r, tmp, v);
    }
  }

  lemma AccessNotMoved(p: seq<Cmd>, r: Reduction, tmp: Value)
    requires Planned(p, r, tmp)
    ensures r.at !in ChainOf(p, r)
  {
    AddressUsedOnce(p, r);
    if r.at in ChainOf(p, r) {
      PlanMoved(p, r, tmp, r.at);
      assert false;
    }
  }

  lemma AcceptedPlanned(p: seq<Cmd>, r: Reduction, tmp: Value)
    requires Accepted(p, r) && Regular(p, r, tmp)
    ensures Planned(p, r, tmp)
  {
  }

  /** Everything `Ready` asks for follows from the pass's own tests and `Regular`. */
  lemma PlanReady(p: seq<Cmd>, r: Reduction, tmp: Value)
    requires Planned(p, r, tmp)
    ensures Ready(PlanOf(p, r, tmp))
  {
    var k := PlanOf(p, r, tmp);
    PlanLoop(p, r, tmp);
    PlanIv(p, r, tmp);
    PlanChain(p, r, tmp);
    PlanAccess(p, r, tmp);
  }

  lemma PlanLoop(p: seq<Cmd>, r: Reduction, tmp: Value)
    requires Planned(p, r, tmp)
    ensures var k := PlanOf(p, r, tmp);
            && Fits(k.p, k.t) && IsLoop(k.p, k.start, k.back) && LastDefs(k.p, k.start + 1, k.back, k.t.defOf)
            && k.start < k.at < k.back
  {
  }

  lemma PlanAccess(p: seq<Cmd>, r: Reduction, tmp: Value)
    requires Planned(p, r, tmp)
    ensures r.at !in ChainOf(p, r) && Temp(r.addr) !in p[r.at].ins[1..]
  {
    AccessNotMoved(p, r, tmp);
    AddressUsedOnce(p, r);
  }

  function ApplyOne(p: seq<Cmd>, r: Reduction, tmp: Value): seq<Cmd>
    requires r.start < r.back < |p| && Fits(p, r.t)
  {
    Rewritten(p, r.start, r.back, ChainOf(p, r), r.addr, r.stride, tmp)
  }

  ghost predicate SameRun(p: seq<Cmd>, q: seq<Cmd>, I: Interp, e: Env, mem: Mem, n: nat, m: nat) {
    SameOutcome(Run(p, I, At(0, e, mem), n), Run(q, I, At(0, e, mem), m))
  }

  /** Whatever the pass accepts, the rewritten function makes the same loads and
      stores in the same order and returns the same result; and it cannot fall
      behind by more than a fixed factor. */
  lemma ReductionKeepsTrace(p: seq<Cmd>, r: Reduction, tmp: Value, I: Interp, e: Env, mem: Mem, n: nat)
    requires Accepted(p, r) && Regular(p, r, tmp)
    ensures exists m: nat :: SameRun(p, ApplyOne(p, r, tmp), I, e, mem, n, m) && n <= |p| * m + |p|
  {
    AcceptedPlanned(p, r, tmp);
    PlanReady(p, r, tmp);
    var k := PlanOf(p, r, tmp);
    ReducedRunIsSame(k, I, e, mem, n);
    assert NewCode(k) == ApplyOne(p, r, tmp);
    var m: nat :| SameOutcome(Run(p, I, At(0, e, mem), n), Run(NewCode(k), I, At(0, e, mem), m)) && n <= |p| * m + |p|;
    assert SameRun(p, ApplyOne(p, r, tmp), I, e, mem, n, m);
  }

  // ---- the pass ----

  const MAX_ROUNDS := 20

  /** One rewrite: the reduction and the temporary invented for it. */
  datatype Round = Round(r: Reduction, tmp: Value)

  /** `trail[i + 1]` is `trail[i]` rewritten by round `i`, which the pass accepts. */
  ghost predicate Stage(trail: seq<seq<Cmd>>, rounds: seq<Round>, i: nat) {
    && i < |rounds| && i + 1 < |trail| && Accepted(trail[i], rounds[i].r)
    && trail[i + 1] == ApplyOne(trail[i], rounds[i].r, rounds[i].tmp)
  }

  ghost predicate Applied(p: seq<Cmd>, q: seq<Cmd>, trail: seq<seq<Cmd>>, rounds: seq<Round>) {
    && |trail| == |rounds| + 1 && trail[0] == p && trail[|rounds|] == q
    && forall i: nat :: i < |rounds| ==> Stage(trail, rounds, i)
  }

  ghost predicate RegularAt(trail: seq<seq<Cmd>>, rounds: seq<Round>, i: nat) {
    && i < |rounds| && i < |trail| && Fits(trail[i], rounds[i].r.t)
    && Regular(trail[i], rounds[i].r, rounds[i].tmp)
  }

  /** One scan of the function. */
  method ReduceOnce(p: seq<Cmd>, tmp: Value) returns (r: Option<Reduction>, q: seq<Cmd>)
    ensures r.Some? ==> Accepted(p, r.value) && q == ApplyOne(p, r.value, tmp)
    ensures r.None? ==> q == p && forall c :: !Accepted(p, c)
  {
    r := FindReduction(p);
    if r.None? {
      return r, p;
    }
    q := Rewrite(p, r.value.start, r.value.back, ChainOf(p, r.value), r.value.addr, r.value.stride, tmp);
  }

  /** The temporaries of the rounds are the spare ones, in order. */
  ghost predicate FromSpare(rounds: seq<Round>, spare: seq<Value>) {
    |rounds| <= |spare| && forall i: nat :: i < |rounds| ==> rounds[i].tmp == spare[i]
  }

  lemma FromSpareThen(rounds: seq<Round>, spare: seq<Value>, r: Reduction)
    requires FromSpare(rounds, spare) && |rounds| < |spare|
    ensures FromSpare(rounds + [Round(r, spare[|rounds|])], spare)
  {
  }

  /** Rewrite until nothing is left to rewrite, at most twenty times. */
  method StrengthReduce(p: seq<Cmd>, spare: seq<Value>) returns (q: seq<Cmd>, ghost trail: seq<seq<Cmd>>, ghost rounds: seq<Round>)
    requires |spare| == MAX_ROUNDS
    ensures Applied(p, q, trail, rounds) && |rounds| <= MAX_ROUNDS
    ensures FromSpare(rounds, spare)
    ensures |rounds| < MAX_ROUNDS ==> forall c :: !Accepted(q, c)
  {
    q, trail, rounds := p, [p], [];
    for n := 0 to MAX_ROUNDS
      invariant Applied(p, q, trail, rounds) && |rounds| == n
      invariant FromSpare(rounds, spare)
    {
      var r, next := ReduceOnce(q, spare[n]);
      if r.None? {
        return;
      }
      AppliedThen(p, q, trail, rounds, Round(r.value, spare[n]), next);
      FromSpareThen(rounds, spare, r.value);
      trail, rounds := trail + [next], rounds + [Round(r.value, spare[n])];
      q := next;
    }
  }

  lemma AppliedThen(p: seq<Cmd>, q: seq<Cmd>, trail: seq<seq<Cmd>>, rounds: seq<Round>, o: Round, next: seq<Cmd>)
    requires Applied(p, q, trail, rounds) && Accepted(q, o.r) && next == ApplyOne(q, o.r, o.tmp)
    ensures Applied(p, next, trail + [next], rounds + [o])
  {
    forall i: nat | i < |rounds| + 1
      ensures Stage(trail + [next], rounds + [o], i)
    {
      if i < |rounds| {
        assert Stage(trail, rounds, i);
      }
    }
  }

  /** How far the rewritten function can fall behind over the first `k` rewrites. */
  function Lag(trail: seq<seq<Cmd>>, k: nat): (r: nat)
    requires k <= |trail|
    ensures r > 0
  {
    if k == 0 then 1 else Lag(trail, k - 1) * (|trail[k - 1]| + 1)
  }

  lemma LagComposes(b: nat, l: nat, n: nat, m: nat, m1: nat)
    requires n + 1 <= b * (m + 1) && m <= l * m1 + l
    ensures n + 1 <= b * (l + 1) * (m1 + 1)
  {
    var x := (l + 1) * (m1 + 1);
    assert x == l * m1 + l + m1 + 1;
    assert m + 1 <= x;
    assert b * (m + 1) <= b * x;
    assert b * x == b * (l + 1) * (m1 + 1);
  }

  /** The whole pass keeps the trace, as long as each rewrite finds regular code, and
      the rewritten function cannot fall behind by more than a fixed factor. */
  lemma {:induction false} PassKeepsTrace(p: seq<Cmd>, q: seq<Cmd>, trail: seq<seq<Cmd>>, rounds: seq<Round>,
                                          I: Interp, e: Env, mem: Mem, n: nat)
    requires Applied(p, q, trail, rounds) && forall i: nat :: i < |rounds| ==> RegularAt(trail, rounds, i)
    ensures exists m: nat :: SameRun(p, q, I, e, mem, n, m) && n + 1 <= Lag(trail, |rounds|) * (m + 1)
  {
    var m := n;
    assert SameRun(p, p, I, e, mem, n, m);
    for i := 0 to |rounds|
      invariant SameRun(p, trail[i], I, e, mem, n, m) && n + 1 <= Lag(trail, i) * (m + 1)
    {
      assert Stage(trail, rounds, i) && RegularAt(trail, rounds, i);
      var m1 := StageKeepsTrace(trail, rounds, i, I, e, mem, m);
      assert SameRun(p, trail[i + 1], I, e, mem, n, m1);
      LagComposes(Lag(trail, i), |trail[i]|, n, m, m1);
      m := m1;
    }
  }

  lemma StageKeepsTrace(trail: seq<seq<Cmd>>, rounds: seq<Round>, i: nat, I: Interp, e: Env, mem: Mem, n: nat) returns (m: nat)
    requires Stage(trail, rounds, i) && RegularAt(trail, rounds, i)
    ensures SameRun(trail[i], trail[i + 1], I, e, mem, n, m) && n <= |trail[i]| * m + |trail[i]|
  {
    ReductionKeepsTrace(trail[i], rounds[i].r, rounds[i].tmp, I, e, mem, n);
    m :| SameRun(trail[i], trail[i + 1], I, e, mem, n, m) && n <= |trail[i]| * m + |trail[i]|;
  }
}
