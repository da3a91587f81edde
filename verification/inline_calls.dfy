/** Splicing captured bodies into a caller. */
module InlineCalls {
  import opened IL
  import opened InlineBodies

  /** One splice: a fresh value per parameter, fresh names for the body's values and
      labels, and the label its returns jump to. */
  datatype Splice = Splice(b: InlineBody, binds: seq<Value>, remap: map<Value, Value>, labels: map<nat, nat>, end: nat)

  type Table = map<nat, InlineBody>

  /** The body a command is to be replaced by, if any. */
  function CalleeOf(table: Table, c: Cmd): Option<InlineBody> {
    if c.Call? && c.fn in table && |c.ret| == 1 && |c.args| == |table[c.fn].params| then Some(table[c.fn]) else None
  }

  // ---- the spliced code ----

  function Renamed(m: map<Value, Value>, v: Value): Value { if v in m then m[v] else v }

  function RenamedOperand(m: map<Value, Value>, o: Operand): Operand {
    if o.Temp? then Temp(Renamed(m, o.v)) else o
  }

  function RenamedAll(m: map<Value, Value>, os: seq<Operand>): (r: seq<Operand>)
    ensures |r| == |os|
  {
    seq(|os|, i requires 0 <= i < |os| => RenamedOperand(m, os[i]))
  }

  function Relabelled(m: map<nat, nat>, l: nat): nat { if l in m then m[l] else l }

  function CloneCmd(s: Splice, c: Cmd): Cmd {
    match c
    case Op(code, ins, outs) => Op(code, RenamedAll(s.remap, ins), RenamedAll(s.remap, outs))
    case Set(out, arg) => Set(RenamedOperand(s.remap, out), RenamedOperand(s.remap, arg))
    case Label(l) => Label(Relabelled(s.labels, l))
    case Jump(l) => Jump(Relabelled(s.labels, l))
    case JumpZero(o, l) => JumpZero(RenamedOperand(s.remap, o), Relabelled(s.labels, l))
    case JumpNotZero(o, l) => JumpNotZero(RenamedOperand(s.remap, o), Relabelled(s.labels, l))
    case Call(fn, args, ret) => Call(fn, RenamedAll(s.remap, args), RenamedAll(s.remap, ret))
    case Return(result) => Return(RenamedAll(s.remap, result))
  }

  function Clone(s: Splice, ret: Operand, c: Cmd): (r: seq<Cmd>)
    ensures |r| > 0
  {
    if c.Return? && |c.result| == 1 then [Set(ret, RenamedOperand(s.remap, c.result[0])), Jump(s.end)]
    else [CloneCmd(s, c)]
  }

  function Clones(s: Splice, ret: Operand, n: nat): seq<Cmd>
    requires n <= |s.b.ops|
  {
    if n == 0 then [] else Clones(s, ret, n - 1) + Clone(s, ret, s.b.ops[n - 1])
  }

  function Bindings(s: Splice, args: seq<Operand>): (r: seq<Cmd>)
    requires |args| == |s.binds|
    ensures |r| == |args|
  {
    seq(|args|, i requires 0 <= i < |args| => Set(Temp(s.binds[i]), args[i]))
  }

  function Block(s: Splice, args: seq<Operand>, ret: Operand): seq<Cmd>
    requires |args| == |s.binds|
  {
    Bindings(s, args) + Clones(s, ret, |s.b.ops|) + [Label(s.end)]
  }

  /** A splice for each command that is replaced. */
  type Plan = seq<Option<Splice>>

  predicate PlanAt(p: seq<Cmd>, table: Table, plan: Plan, i: nat)
    requires |plan| == |p| && i < |p|
  {
    match plan[i]
    case None => CalleeOf(table, p[i]).None?
    case Some(s) => CalleeOf(table, p[i]) == Some(s.b) && |s.binds| == |s.b.params|
  }

  ghost predicate Plans(p: seq<Cmd>, table: Table, plan: Plan) {
    |plan| == |p| && forall i: nat :: i < |p| ==> PlanAt(p, table, plan, i)
  }

  function Piece(p: seq<Cmd>, plan: Plan, i: nat): seq<Cmd>
    requires |plan| == |p| && i < |p|
  {
    if plan[i].Some? && p[i].Call? && |p[i].ret| == 1 && |p[i].args| == |plan[i].value.binds|
    then Block(plan[i].value, p[i].args, p[i].ret[0]) else [p[i]]
  }

  function Flat(ss: seq<seq<Cmd>>): seq<Cmd> {
    if ss == [] then [] else Flat(ss[..|ss| - 1]) + ss[|ss| - 1]
  }

  function Pieces(p: seq<Cmd>, plan: Plan, n: nat): (r: seq<seq<Cmd>>)
    requires n <= |p| == |plan|
    ensures |r| == n
  {
    seq(n, i requires 0 <= i < n => Piece(p, plan, i))
  }

  /** The rewritten caller. */
  function Inlined(p: seq<Cmd>, plan: Plan): seq<Cmd>
    requires |plan| == |p|
  {
    Flat(Pieces(p, plan, |p|))
  }

  // ---- fresh names ----

  ghost predicate ValuesBelow(c: Cmd, bound: nat) {
    forall v :: Temp(v) in Inputs(c) || Temp(v) in Outputs(c) ==> v.id < bound
  }

  predicate LabelBelow(c: Cmd, bound: nat) {
    match c
    case Label(l) => l < bound
    case Jump(l) => l < bound
    case JumpZero(_, l) => l < bound
    case JumpNotZero(_, l) => l < bound
    case _ => true
  }

  /** The values and labels of the caller are below the first fresh ones. */
  ghost predicate Below(p: seq<Cmd>, values: nat, labels: nat) {
    forall c :: c in p ==> ValuesBelow(c, values) && LabelBelow(c, labels)
  }

  ghost predicate Mentions(c: Cmd, v: Value) { Temp(v) in Inputs(c) || Temp(v) in Outputs(c) }

  function LabelOf(c: Cmd): Option<nat> {
    match c
    case Label(l) => Some(l)
    case Jump(l) => Some(l)
    case JumpZero(_, l) => Some(l)
    case JumpNotZero(_, l) => Some(l)
    case _ => None
  }

  /** The fresh copy of the last parameter among the first `k` that is `v`. */
  function LastBind(params: seq<Value>, binds: seq<Value>, k: nat, v: Value): Value
    requires k <= |params| == |binds|
  {
    if k == 0 then v else if params[k - 1] == v then binds[k - 1] else LastBind(params, binds, k - 1, v)
  }

  ghost predicate Injective<K, V>(m: map<K, V>) {
    forall a, b :: a in m && b in m && m[a] == m[b] ==> a == b
  }

  ghost predicate Distinct(s: seq<Value>) {
    forall i, j :: 0 <= i < j < |s| ==> s[i] != s[j]
  }

  /** The names of a splice are new, in the given ranges, and do not collide. */
  ghost predicate FreshSplice(s: Splice, values: nat, labels: nat, labelsEnd: nat) {
    && |s.binds| == |s.b.params| && Distinct(s.binds) && Injective(s.remap) && Injective(s.labels)
    && (forall b :: b in s.binds ==> values <= b.id)
    && (forall v :: v in s.remap ==> values <= s.remap[v].id)
    && (forall v :: v in s.b.params ==> v in s.remap && s.remap[v] == LastBind(s.b.params, s.binds, |s.b.params|, v))
    && (forall v :: v in s.remap && v !in s.b.params ==> s.remap[v] !in s.binds)
    && (forall c, v :: c in s.b.ops && Mentions(c, v) ==> v in s.remap)
    && (forall c :: c in s.b.ops && LabelOf(c).Some? ==> LabelOf(c).value in s.labels)
    && (forall l :: l in s.labels ==> labels <= s.labels[l] < labelsEnd && s.labels[l] != s.end)
    && labels <= s.end < labelsEnd
  }

  // ---- minting the names of one splice ----

  /** A fresh copy of each parameter. */
  method BindParams(b: InlineBody, values: nat) returns (binds: seq<Value>, remap: map<Value, Value>, next: nat)
    ensures |binds| == |b.params| && Distinct(binds) && values <= next
    ensures forall x :: x in binds ==> values <= x.id < next
    ensures remap.Keys == set v | v in b.params
    ensures forall v :: v in b.params ==> remap[v] == LastBind(b.params, binds, |b.params|, v)
    ensures Injective(remap) && forall v :: v in remap ==> remap[v] in binds
  {
    binds, remap, next := [], map[], values;
    for k := 0 to |b.params|
      invariant |binds| == k && next == values + k && Distinct(binds)
      invariant forall i :: 0 <= i < k ==> binds[i].id == values + i
      invariant remap.Keys == set v | v in b.params[..k]
      invariant forall v :: v in remap ==> remap[v] in binds && remap[v] == LastBind(b.params[..k], binds, k, v)
      invariant Injective(remap)
    {
      var v := Value(next, b.params[k].floating);
      forall w
        ensures LastBind(b.params[..k] + [b.params[k]], binds + [v], k + 1, w)
                == if w == b.params[k] then v else LastBind(b.params[..k], binds, k, w)
      {
        BindNext(b.params[..k], binds, b.params[k], v, w);
      }
      assert b.params[..k + 1] == b.params[..k] + [b.params[k]];
      binds, remap, next := binds + [v], remap[b.params[k] := v], next + 1;
    }
    assert b.params[..|b.params|] == b.params;
    assert remap.Keys == set v | v in b.params;
    forall v | v in b.params
      ensures remap[v] == LastBind(b.params, binds, |b.params|, v)
    {
      assert v in remap;
    }
  }

  lemma {:induction false} LastBindPrefix(params: seq<Value>, binds: seq<Value>, k: nat, p: Value, b: Value, v: Value)
    requires k <= |params| == |binds|
    ensures LastBind(params + [p], binds + [b], k, v) == LastBind(params, binds, k, v)
  {
    if k > 0 {
      LastBindPrefix(params, binds, k - 1, p, b, v);
    }
  }

  lemma BindNext(params: seq<Value>, binds: seq<Value>, p: Value, b: Value, v: Value)
    requires |params| == |binds|
    ensures LastBind(params + [p], binds + [b], |params| + 1, v)
            == if v == p then b else LastBind(params, binds, |params|, v)
  {
    LastBindPrefix(params, binds, |params|, p, b, v);
    var ps, bs := params + [p], binds + [b];
    assert ps[|params|] == p && bs[|params|] == b;
  }

  /** Give each value in `vs` a fresh name unless it has one. */
  method FreshFor(vs: seq<Operand>, before: map<Value, Value>, values: nat) returns (remap: map<Value, Value>, next: nat)
    requires Injective(before) && forall v :: v in before ==> before[v].id < values
    ensures values <= next && Injective(remap) && before.Keys <= remap.Keys
    ensures forall v :: v in before ==> remap[v] == before[v]
    ensures forall v :: v in remap ==> remap[v].id < next && (v in before || values <= remap[v].id)
    ensures forall v :: Temp(v) in vs ==> v in remap
  {
    remap, next := before, values;
    for k := 0 to |vs|
      invariant values <= next && Injective(remap) && before.Keys <= remap.Keys
      invariant forall v :: v in before ==> remap[v] == before[v]
      invariant forall v :: v in remap ==> remap[v].id < next && (v in before || values <= remap[v].id)
      invariant forall v :: Temp(v) in vs[..k] ==> v in remap
    {
      if vs[k].Temp? && vs[k].v !in remap {
        remap, next := remap[vs[k].v := Value(next, vs[k].v.floating)], next + 1;
      }
      assert vs[..k + 1] == vs[..k] + [vs[k]];
    }
    assert vs[..|vs|] == vs;
  }

  /** Give the label of `c`, if it has one, a fresh name unless it has one. */
  method FreshLabel(c: Cmd, before: map<nat, nat>, first: nat, labels: nat) returns (after: map<nat, nat>, next: nat)
    requires first <= labels && Injective(before) && forall l :: l in before ==> first <= before[l] < labels
    ensures labels <= next && Injective(after) && before.Keys <= after.Keys
    ensures forall l :: l in after ==> first <= after[l] < next
    ensures LabelOf(c).Some? ==> LabelOf(c).value in after
  {
    after, next := before, labels;
    var l := LabelOf(c);
    if l.Some? && l.value !in after {
      after, next := after[l.value := labels], labels + 1;
    }
  }

  ghost predicate Covered(ops: seq<Cmd>, remap: map<Value, Value>, labels: map<nat, nat>) {
    && (forall c, v :: c in ops && Mentions(c, v) ==> v in remap)
    && (forall c :: c in ops && LabelOf(c).Some? ==> LabelOf(c).value in labels)
  }

  lemma CoveredThen(ops: seq<Cmd>, c: Cmd, remap: map<Value, Value>, labels: map<nat, nat>, remap1: map<Value, Value>, labels1: map<nat, nat>)
    requires Covered(ops, remap, labels) && remap.Keys <= remap1.Keys && labels.Keys <= labels1.Keys
    requires forall v :: Temp(v) in Inputs(c) + Outputs(c) ==> v in remap1
    requires LabelOf(c).Some? ==> LabelOf(c).value in labels1
    ensures Covered(ops + [c], remap1, labels1)
  {
    forall d, v | d in ops + [c] && Mentions(d, v)
      ensures v in remap1
    {
      if d !in ops {
        assert Temp(v) in Inputs(c) + Outputs(c);
      }
    }
  }

  /** All the names of one splice. */
  method Mint(b: InlineBody, values: nat, labels: nat) returns (s: Splice, nextValue: nat, nextLabel: nat)
    ensures s.b == b && values <= nextValue && labels <= nextLabel
    ensures FreshSplice(s, values, labels, nextLabel)
  {
    var binds, remap, next := BindParams(b, values);
    ghost var bound := remap;
    var map_: map<nat, nat>;
    nextValue, nextLabel, map_ := next, labels, map[];
    for k := 0 to |b.ops|
      invariant next <= nextValue && labels <= nextLabel && Injective(remap) && Injective(map_)
      invariant bound.Keys <= remap.Keys && forall v :: v in bound ==> remap[v] == bound[v]
      invariant forall v :: v in remap ==> remap[v].id < nextValue && (v in bound || next <= remap[v].id)
      invariant forall l :: l in map_ ==> labels <= map_[l] < nextLabel
      invariant Covered(b.ops[..k], remap, map_)
    {
      var remap1, next1 := FreshFor(Inputs(b.ops[k]) + Outputs(b.ops[k]), remap, nextValue);
      var labels1, nextl := FreshLabel(b.ops[k], map_, labels, nextLabel);
      CoveredThen(b.ops[..k], b.ops[k], remap, map_, remap1, labels1);
      assert b.ops[..k + 1] == b.ops[..k] + [b.ops[k]];
      remap, nextValue, map_, nextLabel := remap1, next1, labels1, nextl;
    }
    assert b.ops[..|b.ops|] == b.ops;
    s := Splice(b, binds, remap, map_, nextLabel);
    nextLabel := nextLabel + 1;
    assert Covered(s.b.ops, s.remap, s.labels);
  }

  // ---- the whole caller ----

  ghost predicate OwnsLabel(plan: Plan, i: nat, l: nat) {
    i < |plan| && plan[i].Some? && (l == plan[i].value.end || l in plan[i].value.labels.Values)
  }

  /** Every splice has fresh names, and no two share a label. */
  ghost predicate FreshPlan(plan: Plan, values: nat, labels: nat) {
    && (forall i: nat :: i < |plan| ==> FreshAt(plan, values, labels, i))
    && (forall i: nat, j: nat, l: nat :: OwnsLabel(plan, i, l) && OwnsLabel(plan, j, l) ==> i == j)
  }

  ghost predicate FreshAt(plan: Plan, values: nat, labels: nat, i: nat)
    requires i < |plan|
  {
    plan[i].Some? ==> exists end: nat :: FreshSplice(plan[i].value, values, labels, end)
  }

  ghost predicate OwnsBelow(plan: Plan, bound: nat) {
    forall i: nat, l: nat :: OwnsLabel(plan, i, l) ==> l < bound
  }

  lemma PlanGrows(plan: Plan, values: nat, labels: nat, next: nat, s: Splice, nextEnd: nat)
    requires FreshPlan(plan, values, labels) && labels <= next && FreshSplice(s, values, next, nextEnd) && OwnsBelow(plan, next)
    ensures FreshPlan(plan + [Some(s)], values, labels) && OwnsBelow(plan + [Some(s)], nextEnd)
  {
    var grown := plan + [Some(s)];
    assert FreshSplice(s, values, labels, nextEnd);
    forall i: nat | i < |grown|
      ensures FreshAt(grown, values, labels, i)
    {
      if i < |plan| {
        assert FreshAt(plan, values, labels, i);
      }
    }
    forall i: nat, l: nat | OwnsLabel(grown, i, l)
      ensures if i < |plan| then OwnsLabel(plan, i, l) && l < next else next <= l < nextEnd
    {
      if i < |plan| {
        assert OwnsLabel(plan, i, l);
      }
    }
  }

  lemma PlanSkips(plan: Plan, values: nat, labels: nat, next: nat)
    requires FreshPlan(plan, values, labels) && OwnsBelow(plan, next)
    ensures FreshPlan(plan + [None], values, labels) && OwnsBelow(plan + [None], next)
  {
    var grown := plan + [None];
    forall i: nat | i < |grown|
      ensures FreshAt(grown, values, labels, i)
    {
      if i < |plan| {
        assert FreshAt(plan, values, labels, i);
      }
    }
    forall i: nat, l: nat | OwnsLabel(grown, i, l)
      ensures OwnsLabel(plan, i, l)
    {
    }
  }

  ghost predicate Replaces(p: seq<Cmd>, table: Table, i: nat) {
    i < |p| && CalleeOf(table, p[i]).Some?
  }

  /** A command gets a splice exactly if it calls a function with a captured body, keeps
      one result and passes as many arguments as the body has parameters. */
  ghost predicate SpliceAt(p: seq<Cmd>, table: Table, plan: Plan, i: nat)
    requires |plan| == |p| && i < |p|
  {
    && (plan[i].Some? <==> p[i].Call? && p[i].fn in table && |p[i].ret| == 1 && |p[i].args| == |table[p[i].fn].params|)
    && (plan[i].Some? ==> plan[i].value.b == table[p[i].fn] && |plan[i].value.binds| == |p[i].args|)
  }

  /** What has been done after `n` commands. */
  ghost predicate Partial(p: seq<Cmd>, table: Table, n: nat, q: seq<Cmd>, plan: Plan) {
    n <= |p| && |plan| == n && Plans(p[..n], table, plan) && q == Inlined(p[..n], plan)
  }

  /** Copy the caller, splicing each call that can be replaced. */
  method InlineAll(p: seq<Cmd>, table: Table, values: nat, labels: nat) returns (q: seq<Cmd>, changed: bool, ghost plan: Plan)
    ensures Plans(p, table, plan) && q == Inlined(p, plan) && FreshPlan(plan, values, labels)
    ensures forall i: nat :: i < |p| ==> SpliceAt(p, table, plan, i)
    ensures changed <==> exists i: nat :: i < |p| && plan[i].Some?
  {
    q, changed, plan := [], false, [];
    var nextValue, nextLabel := values, labels;
    for n := 0 to |p|
      invariant values <= nextValue && labels <= nextLabel
      invariant Partial(p, table, n, q, plan) && FreshPlan(plan, values, labels) && OwnsBelow(plan, nextLabel)
      invariant changed <==> exists i: nat :: i < n && Replaces(p, table, i)
    {
      var b := CalleeOf(table, p[n]);
      if b.None? {
        PlanSkips(plan, values, labels, nextLabel);
        PartialThen(p, table, n, q, plan, None);
        q, plan := q + [p[n]], plan + [None];
      } else {
        var s, nv, nl := Mint(b.value, nextValue, nextLabel);
        FreshWider(s, values, nextValue, nextLabel, nl);
        PlanGrows(plan, values, labels, nextLabel, s, nl);
        PartialThen(p, table, n, q, plan, Some(s));
        assert Replaces(p, table, n);
        q, plan := q + Block(s, p[n].args, p[n].ret[0]), plan + [Some(s)];
        nextValue, nextLabel, changed := nv, nl, true;
      }
    }
    assert p[..|p|] == p;
    forall i: nat | i < |p|
      ensures SpliceAt(p, table, plan, i) && (plan[i].Some? <==> Replaces(p, table, i))
    {
      assert PlanAt(p, table, plan, i);
    }
  }

  lemma PartialThen(p: seq<Cmd>, table: Table, n: nat, q: seq<Cmd>, plan: Plan, o: Option<Splice>)
    requires n < |p| && Partial(p, table, n, q, plan) && PlanAt([p[n]], table, [o], 0)
    ensures Partial(p, table, n + 1, q + Piece([p[n]], [o], 0), plan + [o])
  {
    SplicedGrows(p, plan, n, o, table);
  }

  lemma FreshWider(s: Splice, values: nat, nextValue: nat, labels: nat, end: nat)
    requires values <= nextValue && FreshSplice(s, nextValue, labels, end)
    ensures FreshSplice(s, values, labels, end)
  {
  }

  lemma SplicedGrows(p: seq<Cmd>, plan: Plan, n: nat, o: Option<Splice>, table: Table)
    requires n < |p| && |plan| == n && Plans(p[..n], table, plan)
    requires PlanAt([p[n]], table, [o], 0)
    ensures Plans(p[..n + 1], table, plan + [o])
    ensures Inlined(p[..n + 1], plan + [o]) == Inlined(p[..n], plan) + Piece([p[n]], [o], 0)
  {
    var grown, longer := plan + [o], p[..n + 1];
    assert Pieces(longer, grown, n + 1)[..n] == Pieces(p[..n], plan, n);
    forall i: nat | i < n + 1
      ensures PlanAt(longer, table, grown, i)
    {
      if i < n {
        assert PlanAt(p[..n], table, plan, i);
      }
    }
  }
}
