/** What the strength-reduction pass needs of the code it is given, and that the
    pass leaves code that still has it. */
module OrderlyCode {
  import opened IL
  import opened UseCounts
  import opened AddressTrace
  import opened StrengthReduction
  import opened ReducedLoop
  import opened ReducedCode
  import opened ReductionPass

  // ---- the condition ----

  ghost predicate OnlyUse(p: seq<Cmd>, v: Value, j: nat) {
    UsedAt(p, v, j) && forall i: nat :: UsedAt(p, v, i) ==> i == j
  }

  /** `v` is used once: as the address of a memory operation, or by a copy, sum or
      product whose result feeds one within `n` steps. */
  ghost predicate Feeds(p: seq<Cmd>, v: Value, n: nat)
    decreases n, 1
  {
    exists j: nat :: FeedsAt(p, v, n, j)
  }

  ghost predicate FeedsAt(p: seq<Cmd>, v: Value, n: nat, j: nat)
    decreases n, 0
  {
    && OnlyUse(p, v, j)
    && (AddressOf(p[j]) == Some(v)
        || (n > 0 && !ShapeOf(p[j]).Untraceable? && exists w :: Temp(w) in Outputs(p[j]) && Feeds(p, w, n - 1)))
  }

  ghost predicate OnceIn(p: seq<Cmd>, start: nat, back: nat, v: Value, d: nat) {
    forall j: nat :: start < j < back && DefinedAt(p, v, j) ==> j == d
  }

  ghost predicate UsedAfter(p: seq<Cmd>, v: Value, d: nat) {
    forall j: nat :: UsedAt(p, v, j) ==> d < j
  }

  /** If the body computes `v` at `d` and `v` feeds an address, it does so once per
      iteration, before the use, and from no value that memory operations could change. */
  ghost predicate FedInOrder(p: seq<Cmd>, start: nat, back: nat, d: nat, v: Value, n: nat) {
    start < d < back && DefinedAt(p, v, d) && !ShapeOf(p[d]).Untraceable? && Feeds(p, v, n) ==>
      OnceIn(p, start, back, v, d) && UsedAfter(p, v, d) && NothingPinned(p, d)
  }

  /** If the body adds a literal to `iv` at `a` and copies the sum back at `u`, the
      addition comes first and is the only definition of the sum. */
  ghost predicate StepInOrder(p: seq<Cmd>, start: nat, back: nat, u: nat, a: nat, iv: Value, tv: Value) {
    start < u < back && start < a < back && u < |p| && p[u] == Set(Temp(iv), Temp(tv))
      && DefinedAt(p, tv, a) && AddedLiteral(p[a], iv).Some? ==>
      a < u && OnceIn(p, start, back, tv, a)
  }

  ghost predicate OrderlyLoop(p: seq<Cmd>, start: nat, back: nat) {
    && (forall d: nat, v, n: nat :: FedInOrder(p, start, back, d, v, n))
    && (forall u: nat, a: nat, iv, tv :: StepInOrder(p, start, back, u, a, iv, tv))
  }

  /** Every loop the pass looks at is orderly. */
  ghost predicate Orderly(p: seq<Cmd>) {
    forall start: nat, back: nat :: IsLoop(p, start, back) ==> OrderlyLoop(p, start, back)
  }

  ghost predicate Unused(p: seq<Cmd>, v: Value) {
    (forall j: nat :: !UsedAt(p, v, j)) && (forall j: nat :: !DefinedAt(p, v, j))
  }

  // ---- orderly code is regular wherever the pass accepts ----

  /** If `x` feeds an address so does everything its chain computes. */
  lemma {:induction false} ChainFeeds(p: seq<Cmd>, r: Reduction, x: Operand, depth: nat, n: nat, d: nat)
    requires Accepted(p, r) && Trace(p, r.t, x, depth).Some? && d in Chain(p, r.t, x, depth)
    requires Chain(p, r.t, x, depth) <= ChainOf(p, r)
    requires x.Temp? && Feeds(p, x.v, n)
    ensures exists o, m: nat :: Link(p, r.t, d, o) && Feeds(p, o, m)
    decreases MAX_DEPTH + 1 - depth
  {
    var e := r.t.defOf[x.v];
    if d == e {
      TraceShallower(p, r.t, x, depth, 0);
      assert Link(p, r.t, d, x.v);
    } else {
      match ShapeOf(p[e]) {
        case CopyOf(y) => StepFeeds(p, r, x, depth, n, d, y);
        case Sum(_, y, z) =>
          if d in Chain(p, r.t, y, depth + 1) {
            StepFeeds(p, r, x, depth, n, d, y);
          } else {
            StepFeeds(p, r, x, depth, n, d, z);
          }
        case Product(y, _) => StepFeeds(p, r, x, depth, n, d, y);
      }
    }
  }

  lemma {:induction false} StepFeeds(p: seq<Cmd>, r: Reduction, x: Operand, depth: nat, n: nat, d: nat, y: Operand)
    requires Accepted(p, r) && depth <= MAX_DEPTH && !IsLeaf(r.t, x) && Reads(ShapeOf(p[r.t.defOf[x.v]]), y)
    requires Trace(p, r.t, y, depth + 1).Some? && d in Chain(p, r.t, y, depth + 1)
    requires Chain(p, r.t, y, depth + 1) + {r.t.defOf[x.v]} <= ChainOf(p, r)
    requires Feeds(p, x.v, n)
    ensures exists o, m: nat :: Link(p, r.t, d, o) && Feeds(p, o, m)
    decreases MAX_DEPTH + 1 - depth, 0
  {
    var e := r.t.defOf[x.v];
    assert !IsLeaf(r.t, y);
    assert r.t.defOf[y.v] in Chain(p, r.t, y, depth + 1);
    ReadsAreUses(p[e], y);
    assert UsedAt(p, y.v, e);
    assert DefinedAt(p, y.v, r.t.defOf[y.v]) && DefinedAt(p, x.v, e);
    assert UseCount(p, y.v) == 1;
    assert OnlyUse(p, y.v, e) by {
      forall i: nat | UsedAt(p, y.v, i) ensures i == e { UsedOnce(p, y.v, e, i); }
    }
    assert FeedsAt(p, y.v, n + 1, e);
    ChainFeeds(p, r, y, depth + 1, n + 1, d);
  }

  lemma AddressFeeds(p: seq<Cmd>, r: Reduction)
    requires Accepted(p, r)
    ensures Feeds(p, r.addr, 0) && OnlyUse(p, r.addr, r.at)
  {
    AddressUsedOnce(p, r);
    assert FeedsAt(p, r.addr, 0, r.at);
  }

  /** A value of the chain is computed in order. */
  lemma ChainInOrder(p: seq<Cmd>, r: Reduction, d: nat) returns (o: Value)
    requires Accepted(p, r) && Orderly(p) && d in ChainOf(p, r)
    ensures Link(p, r.t, d, o) && r.start < d < r.back && DefinedAt(p, o, d) && !ShapeOf(p[d]).Untraceable?
    ensures OnceIn(p, r.start, r.back, o, d) && UsedAfter(p, o, d) && NothingPinned(p, d)
  {
    AddressFeeds(p, r);
    ChainFeeds(p, r, Temp(r.addr), 0, 0, d);
    var n: nat;
    o, n :| Link(p, r.t, d, o) && Feeds(p, o, n);
    LinkTraceable(p, r.t, d, o);
    assert OrderlyLoop(p, r.start, r.back);
    assert FedInOrder(p, r.start, r.back, d, o, n);
  }

  /** Orderly code is regular for every reduction the pass accepts. */
  lemma OrderlyIsRegular(p: seq<Cmd>, r: Reduction, tmp: Value)
    requires Accepted(p, r) && Orderly(p) && Unused(p, tmp)
    ensures Regular(p, r, tmp)
  {
    forall d | d in ChainOf(p, r)
      ensures NothingPinned(p, d)
      ensures forall v :: v in r.t.defOf && r.t.defOf[v] == d && Link(p, r.t, d, v) ==> OnceBeforeUse(p, r, v)
    {
      var o := ChainInOrder(p, r, d);
      forall v | v in r.t.defOf && r.t.defOf[v] == d && Link(p, r.t, d, v)
        ensures OnceBeforeUse(p, r, v)
      {
        SameOutput(p, r.t, d, v, o);
      }
    }
    forall tv | CopiesTo(p, r, tv)
      ensures r.t.defOf[tv] < r.t.defOf[r.iv] && OnceInBody(p, r, tv)
    {
      IvSites(p, r.start, r.back, r.t.defOf, r.iv);
      assert OrderlyLoop(p, r.start, r.back);
      assert StepInOrder(p, r.start, r.back, r.t.defOf[r.iv], r.t.defOf[tv], r.iv, tv);
    }
  }
}
