/** What an accepted loop keeps from command to command: the values of the moved
    chain relative to the induction variable. */
module ReducedLoop {
  import opened IL
  import opened UseCounts
  import opened AddressTrace
  import opened StrengthReduction

  /** An accepted reduction with the sites it rests on: the induction variable is
      updated at `u` from `tv`, computed at `a` by adding `inc`; `tmp` is fresh;
      `moved` holds the indices of the chain. */
  datatype Plan = Plan(p: seq<Cmd>, start: nat, back: nat, t: Tables, at: nat, addr: Value, iv: Value,
                       scale: int, inc: int, u: nat, a: nat, tv: Value, tmp: Value,
                       moved: set<nat>) {
    function Stride(): int { scale * inc }
  }

  /** Within the body only command `d` defines `v`. */
  ghost predicate OnlyDef(k: Plan, v: Value, d: nat) {
    forall j: nat :: k.start < j < k.back && DefinedAt(k.p, v, j) ==> j == d
  }

  /** `v` is computed by a moved command. */
  ghost predicate ChainTemp(k: Plan, v: Value)
    requires Fits(k.p, k.t)
  {
    v in k.t.defOf && k.t.defOf[v] in k.moved && Link(k.p, k.t, k.t.defOf[v], v)
  }

  /** Values on which the two versions of the function may differ. */
  ghost predicate Dead(k: Plan, v: Value)
    requires Fits(k.p, k.t)
  {
    v == k.tmp || ChainTemp(k, v)
  }

  ghost predicate IvReady(k: Plan)
    requires Fits(k.p, k.t)
  {
    && k.iv in k.t.ivs && k.iv in k.t.defOf && k.t.defOf[k.iv] == k.u
    && k.start < k.a < k.u < k.back < |k.p|
    && k.p[k.u] == Set(Temp(k.iv), Temp(k.tv)) && AddedLiteral(k.p[k.a], k.iv) == Some(k.inc)
    && DefinedAt(k.p, k.tv, k.a) && OnlyDef(k, k.iv, k.u) && OnlyDef(k, k.tv, k.a)
    && !Dead(k, k.tv) && !Dead(k, k.iv) && k.tv != k.iv
  }

  ghost predicate AddressTracked(k: Plan)
    requires Fits(k.p, k.t)
  {
    Trace(k.p, k.t, Temp(k.addr), 0) == Some((Temp(k.iv), k.scale))
  }

  ghost predicate ChainReady(k: Plan)
    requires Fits(k.p, k.t)
  {
    && k.addr !in k.t.ivs && ChainTemp(k, k.addr)
    && AddressTracked(k) && k.moved == Chain(k.p, k.t, Temp(k.addr), 0)
    && (forall d :: d in k.moved ==> MovedReady(k, d))
    && (forall v {:trigger ChainTemp(k, v)} :: ChainTemp(k, v) ==> OnlyDef(k, v, k.t.defOf[v]) && UsedInChain(k, v))
  }

  ghost predicate MovedReady(k: Plan, d: nat)
    requires Fits(k.p, k.t)
  {
    && k.start < d < k.u && d < |k.p| && !ShapeOf(k.p[d]).Untraceable?
    && (forall y :: Reads(ShapeOf(k.p[d]), y) ==> !y.Pinned?)
  }

  /** A chain temporary is read after its definition, by a moved command or, if it
      is the address, as the address of the memory operation. */
  ghost predicate UsedInChain(k: Plan, v: Value)
    requires Fits(k.p, k.t) && v in k.t.defOf
  {
    forall j: nat :: UsedAt(k.p, v, j) ==>
      k.t.defOf[v] < j && (j in k.moved || (j == k.at && v == k.addr))
  }

  ghost predicate Ready(k: Plan) {
    && Fits(k.p, k.t) && IsLoop(k.p, k.start, k.back) && LastDefs(k.p, k.start + 1, k.back, k.t.defOf)
    && k.start < k.at < k.back && k.at !in k.moved
    && AddressOf(k.p[k.at]) == Some(k.addr) && Temp(k.addr) !in k.p[k.at].ins[1..]
    && IvReady(k) && ChainReady(k)
    && (forall j: nat :: !UsedAt(k.p, k.tmp, j)) && (forall j: nat :: !DefinedAt(k.p, k.tmp, j))
  }

  // ---- values along the body ----

  /** The address as the chain computes it from the current environment. */
  ghost function AddressIn(k: Plan, env: Env): int
    requires Fits(k.p, k.t)
  {
    ChainVal(k.p, k.t, env, Temp(k.addr), 0)
  }

  /** The address this iteration uses, seen from command `i`: once the induction
      variable has been updated the chain is one stride ahead. */
  ghost function Address(k: Plan, i: nat, env: Env): int
    requires Fits(k.p, k.t)
  {
    AddressIn(k, env) - (if i > k.u then k.Stride() else 0)
  }

  /** The value of `v` depends on no induction variable but `iv`. */
  ghost predicate Tracked(k: Plan, x: Operand)
    requires Fits(k.p, k.t)
  {
    var tr := Trace(k.p, k.t, x, 0);
    tr.Some? && (tr.value.1 == 0 || tr.value.0 == Temp(k.iv))
  }

  ghost predicate LinksHold(k: Plan, i: nat, env: Env)
    requires Fits(k.p, k.t)
  {
    forall v {:trigger ChainTemp(k, v)} :: ChainTemp(k, v) && k.t.defOf[v] < i && Tracked(k, Temp(v)) ==>
      Get(env, v) == ChainVal(k.p, k.t, env, Temp(v), 0)
  }

  /** The invariant of the original body in front of command `i`. */
  ghost predicate BodyOk(k: Plan, i: nat, env: Env)
    requires Fits(k.p, k.t) && k.addr in k.t.defOf
  {
    k.start < i <= k.back ==>
      && (i <= k.u ==> LinksHold(k, i, env))
      && (k.t.defOf[k.addr] < i ==> Get(env, k.addr) == Address(k, i, env))
      && (k.a < i <= k.u ==> Get(env, k.tv) == Get(env, k.iv) + k.inc)
  }

  /** The environments differ at most on the outputs of command `i`. */
  ghost predicate OnlyWrites(k: Plan, i: nat, e: Env, e1: Env)
    requires i < |k.p|
  {
    forall v {:trigger Get(e1, v)} :: Temp(v) !in Outputs(k.p[i]) ==> Get(e1, v) == Get(e, v)
  }

  lemma BodyWritesKeepInvariants(k: Plan, i: nat, e: Env, e1: Env)
    requires LastDefs(k.p, k.start + 1, k.back, k.t.defOf) && k.start < i < k.back && i < |k.p| && OnlyWrites(k, i, e, e1)
    ensures SameInvariants(k.t, e, e1)
  {
    forall v | v !in k.t.defOf
      ensures Get(e, v) == Get(e1, v)
    {
      if Temp(v) in Outputs(k.p[i]) {
        assert DefinedAt(k.p, v, i);
      }
    }
  }

  /** A traced value that follows at most `iv` stays while `iv` does. */
  lemma ValueStays(k: Plan, e: Env, e1: Env, x: Operand)
    requires Fits(k.p, k.t) && SameInvariants(k.t, e, e1) && Tracked(k, x) && Get(e1, k.iv) == Get(e, k.iv)
    ensures ChainVal(k.p, k.t, e1, x, 0) == ChainVal(k.p, k.t, e, x, 0)
  {
    TraceIsAffine(k.p, k.t, e, e1, x);
    var tr := Trace(k.p, k.t, x, 0).value;
    ZeroProduct(tr.1, Leaf(e1, tr.0) - Leaf(e, tr.0));
  }

  lemma ZeroProduct(s: int, d: int)
    requires s == 0 || d == 0
    ensures s * d == 0
  {
  }

  lemma IvStays(k: Plan, i: nat, e: Env, e1: Env)
    requires OnlyDef(k, k.iv, k.u) && k.start < i < k.back && i != k.u && i < |k.p| && OnlyWrites(k, i, e, e1)
    ensures Get(e1, k.iv) == Get(e, k.iv)
  {
    assert DefinedAt(k.p, k.iv, i) <==> Temp(k.iv) in Outputs(k.p[i]);
  }

  lemma AddressStays(k: Plan, i: nat, e: Env, e1: Env)
    requires Fits(k.p, k.t) && LastDefs(k.p, k.start + 1, k.back, k.t.defOf)
    requires OnlyDef(k, k.iv, k.u) && AddressTracked(k)
    requires k.start < i < k.back && i != k.u && i < |k.p| && OnlyWrites(k, i, e, e1)
    ensures Get(e1, k.iv) == Get(e, k.iv) && AddressIn(k, e1) == AddressIn(k, e)
    ensures Address(k, i + 1, e1) == Address(k, i, e)
  {
    BodyWritesKeepInvariants(k, i, e, e1);
    IvStays(k, i, e, e1);
    assert Tracked(k, Temp(k.addr));
    ValueStays(k, e, e1, Temp(k.addr));
  }

  /** Links already computed are not disturbed by a command that is not the update. */
  lemma LinksStay(k: Plan, i: nat, e: Env, e1: Env)
    requires Ready(k) && k.start < i < k.u && OnlyWrites(k, i, e, e1) && LinksHold(k, i, e)
    ensures forall v {:trigger ChainTemp(k, v)} :: ChainTemp(k, v) && k.t.defOf[v] < i && Tracked(k, Temp(v)) ==>
              Get(e1, v) == ChainVal(k.p, k.t, e1, Temp(v), 0)
  {
    BodyWritesKeepInvariants(k, i, e, e1);
    AddressStays(k, i, e, e1);
    forall v | ChainTemp(k, v) && k.t.defOf[v] < i && Tracked(k, Temp(v))
      ensures Get(e1, v) == ChainVal(k.p, k.t, e1, Temp(v), 0)
    {
      assert Temp(v) in Outputs(k.p[i]) ==> DefinedAt(k.p, v, i);
      ValueStays(k, e, e1, Temp(v));
    }
  }

  /** An ordinary command of the body: not moved, not the update. */
  lemma OrdinaryKeeps(k: Plan, i: nat, e: Env, e1: Env)
    requires Ready(k) && k.start < i < k.back && i !in k.moved && i != k.u && i != k.a
    requires BodyOk(k, i, e) && OnlyWrites(k, i, e, e1)
    ensures BodyOk(k, i + 1, e1)
  {
    AddressStays(k, i, e, e1);
    if i < k.u {
      LinksStay(k, i, e, e1);
    }
    assert Temp(k.tv) in Outputs(k.p[i]) ==> DefinedAt(k.p, k.tv, i);
    AddressNotHere(k, i);
    assert ChainTemp(k, k.addr);
    assert Temp(k.addr) in Outputs(k.p[i]) ==> DefinedAt(k.p, k.addr, i);
  }

  lemma AddressNotHere(k: Plan, i: nat)
    requires Ready(k) && i !in k.moved
    ensures k.t.defOf[k.addr] != i
    ensures forall v {:trigger ChainTemp(k, v)} :: ChainTemp(k, v) ==> k.t.defOf[v] != i
  {
    assert ChainTemp(k, k.addr);
  }

  /** The addition feeding the induction variable. */
  lemma AdditionKeeps(k: Plan, e: Env, e1: Env)
    requires Ready(k) && BodyOk(k, k.a, e) && OnlyWrites(k, k.a, e, e1)
    requires Get(e1, k.tv) == Get(e, k.iv) + k.inc && k.a !in k.moved
    ensures BodyOk(k, k.a + 1, e1)
  {
    AddressStays(k, k.a, e, e1);
    LinksStay(k, k.a, e, e1);
    AddressNotHere(k, k.a);
    assert ChainTemp(k, k.addr);
    assert Temp(k.addr) in Outputs(k.p[k.a]) ==> DefinedAt(k.p, k.addr, k.a);
  }

  /** The update of the induction variable moves the chain one stride ahead. */
  lemma UpdateKeeps(k: Plan, e: Env, e1: Env)
    requires Ready(k) && BodyOk(k, k.u, e) && e1 == e[k.iv := Get(e, k.tv)]
    ensures BodyOk(k, k.u + 1, e1) && Address(k, k.u + 1, e1) == Address(k, k.u, e)
  {
    assert ChainTemp(k, k.addr);
    assert MovedReady(k, k.t.defOf[k.addr]);
    UpdateStep(k, e, e1);
  }

  lemma UpdateStep(k: Plan, e: Env, e1: Env)
    requires Fits(k.p, k.t) && k.iv in k.t.defOf && AddressTracked(k) && k.addr in k.t.defOf && k.t.defOf[k.addr] < k.u
    requires k.addr !in k.t.ivs && k.iv in k.t.ivs && k.start < k.a < k.u < k.back
    requires BodyOk(k, k.u, e) && e1 == e[k.iv := Get(e, k.tv)]
    ensures BodyOk(k, k.u + 1, e1) && Address(k, k.u + 1, e1) == Address(k, k.u, e)
  {
    assert Get(e, k.addr) == AddressIn(k, e) && Get(e, k.tv) == Get(e, k.iv) + k.inc;
    UpdateAdvances(k, e, e1);
    assert Get(e1, k.addr) == Get(e, k.addr);
  }

  lemma UpdateAdvances(k: Plan, e: Env, e1: Env)
    requires Fits(k.p, k.t) && k.iv in k.t.defOf && AddressTracked(k)
    requires e1 == e[k.iv := Get(e, k.iv) + k.inc]
    ensures AddressIn(k, e1) == AddressIn(k, e) + k.Stride()
  {
    assert SameInvariants(k.t, e, e1);
    TraceIsAffine(k.p, k.t, e, e1, Temp(k.addr));
    assert Leaf(e1, Temp(k.iv)) - Leaf(e, Temp(k.iv)) == k.inc;
  }

  // ---- executing a moved command ----

  /** What a traceable command computes from non-pinned operands. */
  function ShapeVal(s: Shape, env: Env): int {
    match s
    case CopyOf(y) => Leaf(env, y)
    case Sum(minus, y, z) => if minus then Leaf(env, y) - Leaf(env, z) else Leaf(env, y) + Leaf(env, z)
    case Product(y, c) => Leaf(env, y) * c
    case Untraceable => 0
  }

  lemma ShapeStep(p: seq<Cmd>, I: Interp, i: nat, env: Env, mem: Mem, o: Value)
    requires i < |p| && !ShapeOf(p[i]).Untraceable? && Outputs(p[i]) == [Temp(o)]
    requires forall y :: Reads(ShapeOf(p[i]), y) ==> !y.Pinned?
    ensures Step(p, I, At(i, env, mem)) == At(i + 1, env[o := ShapeVal(ShapeOf(p[i]), env)], mem)
  {
    var c := p[i];
    if c.Op? {
      var xs := EvalAll(I, env, mem, c.ins);
      assert Reads(ShapeOf(c), c.ins[0]) || c.ins[0].Lit?;
      assert Reads(ShapeOf(c), c.ins[1]) || c.ins[1].Lit?;
      assert xs[0] == Leaf(env, c.ins[0]) && xs[1] == Leaf(env, c.ins[1]);
      var r := ExecOp(I, c.code, xs, mem).0;
      assert r == [ShapeVal(ShapeOf(c), env)];
      WriteSingle(I, env, mem, o, r[0]);
    } else {
      assert Reads(ShapeOf(c), c.arg);
    }
  }

  lemma WriteSingle(I: Interp, env: Env, mem: Mem, o: Value, x: int)
    ensures WriteAll(I, env, mem, [Temp(o)], [x]) == (env[o := x], mem)
  {
    assert WriteAll(I, env[o := x], mem, [], []) == (env[o := x], mem);
  }

  /** The shape applied to the traced values of its operands. */
  ghost function ShapeOfVals(k: Plan, env: Env, s: Shape): int
    requires Fits(k.p, k.t)
  {
    match s
    case CopyOf(y) => ChainVal(k.p, k.t, env, y, 0)
    case Sum(minus, y, z) =>
      if minus then ChainVal(k.p, k.t, env, y, 0) - ChainVal(k.p, k.t, env, z, 0)
      else ChainVal(k.p, k.t, env, y, 0) + ChainVal(k.p, k.t, env, z, 0)
    case Product(y, c) => ChainVal(k.p, k.t, env, y, 0) * c
    case Untraceable => 0
  }

  /** One unfolding of the traced value. */
  lemma ValueUnfolds(k: Plan, env: Env, d: nat, o: Value)
    requires Fits(k.p, k.t) && Link(k.p, k.t, d, o)
    ensures ChainVal(k.p, k.t, env, Temp(o), 0) == ShapeOfVals(k, env, ShapeOf(k.p[d]))
  {
    match ShapeOf(k.p[d]) {
      case CopyOf(y) => ValueShallower(k.p, k.t, env, y, 1, 0);
      case Sum(_, y, z) =>
        ValueShallower(k.p, k.t, env, y, 1, 0);
        ValueShallower(k.p, k.t, env, z, 1, 0);
      case Product(y, _) => ValueShallower(k.p, k.t, env, y, 1, 0);
      case Untraceable =>
    }
  }

  /** The operands of a tracked link are tracked, unless multiplied by zero. */
  lemma OperandsTracked(k: Plan, d: nat, o: Value, y: Operand)
    requires Fits(k.p, k.t) && Link(k.p, k.t, d, o) && Tracked(k, Temp(o)) && Reads(ShapeOf(k.p[d]), y)
    ensures Tracked(k, y) || (ShapeOf(k.p[d]).Product? && ShapeOf(k.p[d]).k == 0)
  {
    match ShapeOf(k.p[d]) {
      case CopyOf(a) => TraceShallower(k.p, k.t, a, 1, 0);
      case Sum(_, a, b) =>
        TraceShallower(k.p, k.t, a, 1, 0);
        TraceShallower(k.p, k.t, b, 1, 0);
      case Product(a, c) =>
        TraceShallower(k.p, k.t, a, 1, 0);
        if c != 0 {
          NonZeroProduct(Trace(k.p, k.t, a, 0).value.1, c);
        }
      case Untraceable =>
    }
  }

  lemma NonZeroProduct(s: int, c: int)
    requires s != 0 && c != 0
    ensures s * c != 0
  {
  }

  /** An operand holds its traced value when the links before `d` do. */
  lemma OperandHolds(k: Plan, d: nat, o: Value, env: Env, y: Operand)
    requires Ready(k) && Link(k.p, k.t, d, o) && d in k.moved && LinksHold(k, d, env)
    requires Chain(k.p, k.t, Temp(o), 0) <= k.moved
    requires Reads(ShapeOf(k.p[d]), y) && Tracked(k, y)
    ensures Leaf(env, y) == ChainVal(k.p, k.t, env, y, 0)
  {
    LinkReads(k.p, k.t, d, o, y);
    if !IsLeaf(k.t, y) {
      assert ChainTemp(k, y.v);
      assert UsedAt(k.p, y.v, d) by { ReadsAreUses(k.p[d], y); }
      assert UsedInChain(k, y.v);
    }
  }

  lemma ReadsAreUses(c: Cmd, y: Operand)
    requires Reads(ShapeOf(c), y) && y.Temp?
    ensures Temp(y.v) in Inputs(c)
  {
    assert y in Inputs(c);
  }

  /** A moved command gives its temporary the traced value. */
  lemma LinkComputes(k: Plan, d: nat, o: Value, env: Env)
    requires Ready(k) && Link(k.p, k.t, d, o) && d in k.moved && LinksHold(k, d, env) && Tracked(k, Temp(o))
    requires Chain(k.p, k.t, Temp(o), 0) <= k.moved
    ensures ShapeVal(ShapeOf(k.p[d]), env) == ChainVal(k.p, k.t, env, Temp(o), 0)
  {
    ValueUnfolds(k, env, d, o);
    forall y | Reads(ShapeOf(k.p[d]), y)
      ensures OperandOk(k, env, ShapeOf(k.p[d]), y)
    {
      OperandsTracked(k, d, o, y);
      if Tracked(k, y) {
        OperandHolds(k, d, o, env, y);
      }
    }
    SameOperands(k, env, ShapeOf(k.p[d]));
  }

  ghost predicate OperandOk(k: Plan, env: Env, s: Shape, y: Operand)
    requires Fits(k.p, k.t)
  {
    Leaf(env, y) == ChainVal(k.p, k.t, env, y, 0) || (s.Product? && s.k == 0)
  }

  lemma SameOperands(k: Plan, env: Env, s: Shape)
    requires Fits(k.p, k.t) && forall y :: Reads(s, y) ==> OperandOk(k, env, s, y)
    ensures ShapeVal(s, env) == ShapeOfVals(k, env, s)
  {
    match s {
      case CopyOf(y) =>
        assert Reads(s, y);
      case Sum(_, y, z) =>
        assert Reads(s, y) && Reads(s, z);
      case Product(y, c) =>
        assert Reads(s, y);
        if c == 0 {
          ZeroProduct(Leaf(env, y), c);
          ZeroProduct(ChainVal(k.p, k.t, env, y, 0), c);
        }
      case Untraceable =>
    }
  }

  /** Command `d` of the chain computes exactly one chain temporary. */
  lemma MovedOutput(k: Plan, d: nat) returns (o: Value)
    requires Ready(k) && d in k.moved
    ensures ChainTemp(k, o) && k.t.defOf[o] == d && Link(k.p, k.t, d, o)
    ensures Chain(k.p, k.t, Temp(o), 0) <= k.moved
    ensures Outputs(k.p[d]) == [Temp(o)]
  {
    ChainIsLinks(k.p, k.t, Temp(k.addr), 0, d);
    o :| Link(k.p, k.t, d, o) && Chain(k.p, k.t, Temp(o), 0) <= k.moved;
    assert DefinedAt(k.p, o, d);
    assert MovedReady(k, d);
    SingleOutput(k.p[d], o);
  }

  lemma SingleOutput(c: Cmd, o: Value)
    requires !ShapeOf(c).Untraceable? && Temp(o) in Outputs(c)
    ensures Outputs(c) == [Temp(o)]
  {
    assert Temp(o) in Outputs(c);
    assert |Outputs(c)| == 1;
  }

  lemma MovedLinks(k: Plan, d: nat, o: Value, e: Env, e1: Env)
    requires Ready(k) && d in k.moved && ChainTemp(k, o) && k.t.defOf[o] == d && k.start < d < k.u
    requires Chain(k.p, k.t, Temp(o), 0) <= k.moved && Outputs(k.p[d]) == [Temp(o)]
    requires LinksHold(k, d, e) && e1 == e[o := ShapeVal(ShapeOf(k.p[d]), e)] && OnlyWrites(k, d, e, e1)
    ensures LinksHold(k, d + 1, e1)
  {
    LinksStay(k, d, e, e1);
    BodyWritesKeepInvariants(k, d, e, e1);
    IvStays(k, d, e, e1);
    forall v | ChainTemp(k, v) && k.t.defOf[v] < d + 1 && Tracked(k, Temp(v))
      ensures Get(e1, v) == ChainVal(k.p, k.t, e1, Temp(v), 0)
    {
      if k.t.defOf[v] == d {
        assert DefinedAt(k.p, v, d);
        assert Temp(v) in Outputs(k.p[d]);
        LinkComputes(k, d, o, e);
        ValueStays(k, e, e1, Temp(v));
      }
    }
  }

  lemma MovedKeeps(k: Plan, d: nat, o: Value, e: Env, e1: Env)
    requires Ready(k) && d in k.moved && ChainTemp(k, o) && k.t.defOf[o] == d && k.start < d < k.u
    requires Chain(k.p, k.t, Temp(o), 0) <= k.moved && Outputs(k.p[d]) == [Temp(o)]
    requires BodyOk(k, d, e) && e1 == e[o := ShapeVal(ShapeOf(k.p[d]), e)] && OnlyWrites(k, d, e, e1)
    ensures BodyOk(k, d + 1, e1)
    ensures Address(k, d + 1, e1) == Address(k, d, e)
  {
    AdditionNotMoved(k, d, o);
    AddressStays(k, d, e, e1);
    MovedLinks(k, d, o, e, e1);
    assert ChainTemp(k, k.addr);
    BodyAfterLink(k, d, o, e, e1);
  }

  lemma AdditionNotMoved(k: Plan, d: nat, o: Value)
    requires d < |k.p| && Outputs(k.p[d]) == [Temp(o)] && o != k.tv && DefinedAt(k.p, k.tv, k.a)
    ensures d != k.a
  {
    assert forall v :: Temp(v) in Outputs(k.p[d]) ==> Temp(v) in Outputs(k.p[d]);
  }

  lemma BodyAfterLink(k: Plan, d: nat, o: Value, e: Env, e1: Env)
    requires Fits(k.p, k.t) && k.addr in k.t.defOf && ChainTemp(k, k.addr) && AddressTracked(k)
    requires k.start < d < k.u < k.back && BodyOk(k, d, e) && LinksHold(k, d + 1, e1)
    requires forall v :: v != o ==> Get(e1, v) == Get(e, v)
    requires k.tv != o && k.iv != o && d != k.a
    ensures BodyOk(k, d + 1, e1)
  {
    assert Tracked(k, Temp(k.addr));
  }
}
