/** The worklist engine of the memory-safety analysis, for any transfer function. */
module Dataflow {
  import opened IL
  import opened ControlFlow
  import opened MemoryStates

  /** How one command changes a state. */
  type Transfer = (nat, State) -> State

  /** A block's effect: its commands one after the other. */
  function Through(f: Transfer, s: State, lo: nat, hi: nat): State
    decreases hi
  {
    if hi <= lo then s else f(hi - 1, Through(f, s, lo, hi - 1))
  }

  function BlockOut(g: Cfg, f: Transfer, b: nat, s: State): State
    requires b < |g.blocks|
  {
    Through(f, s, g.blocks[b].0, g.blocks[b].1)
  }

  ghost predicate Shaped(g: Cfg) {
    |g.succ| == |g.blocks| && forall b: nat, k: nat :: b < |g.succ| && k < |g.succ[b]| ==> g.succ[b][k] < |g.blocks|
  }

  type States = seq<Option<State>>

  // ---- what a solution is ----

  ghost predicate Reached(inn: States, b: nat) { b < |inn| && inn[b].Some? }

  /** `s` has arrived at block `t`. */
  ghost predicate Arrived(inn: States, t: nat, s: State) { Reached(inn, t) && Below(s, inn[t].value) }

  /** Block `b`'s effect on its in-state has arrived at every successor. */
  ghost predicate Flowed(g: Cfg, f: Transfer, inn: States, b: nat)
    requires Shaped(g) && b < |g.blocks|
  {
    Reached(inn, b) ==> forall k: nat :: k < |g.succ[b]| ==> Arrived(inn, g.succ[b][k], BlockOut(g, f, b, inn[b].value))
  }

  ghost predicate Solution(g: Cfg, f: Transfer, init: State, inn: States) {
    && Shaped(g) && |inn| == |g.blocks| > 0 && Arrived(inn, 0, init)
    && forall b: nat :: b < |g.blocks| ==> Flowed(g, f, inn, b)
  }

  // ---- facts that can ever hold ----

  ghost predicate Inside(u: set<Fact>, s: State) { Facts(s) <= u }

  /** The transfer function invents no fact outside `u`. */
  ghost predicate Closed(u: set<Fact>, f: Transfer) {
    forall i, s :: Inside(u, s) ==> Inside(u, f(i, s))
  }

  lemma {:induction false} ThroughInside(u: set<Fact>, f: Transfer, s: State, lo: nat, hi: nat)
    requires Closed(u, f) && Inside(u, s)
    ensures Inside(u, Through(f, s, lo, hi))
    decreases hi
  {
    if lo < hi {
      ThroughInside(u, f, s, lo, hi - 1);
    }
  }

  // ---- the measure ----

  ghost function Room(u: set<Fact>, o: Option<State>): nat {
    match o
    case None => |u| + 1
    case Some(s) => |u - Facts(s)|
  }

  ghost function Remaining(u: set<Fact>, inn: States): nat {
    if inn == [] then 0 else Remaining(u, inn[..|inn| - 1]) + Room(u, inn[|inn| - 1])
  }

  lemma {:induction false} RemainingDrops(u: set<Fact>, inn: States, t: nat, o: Option<State>)
    requires t < |inn| && Room(u, o) < Room(u, inn[t])
    ensures Remaining(u, inn[t := o]) < Remaining(u, inn)
    decreases |inn|
  {
    var n := |inn| - 1;
    if t < n {
      assert inn[t := o][..n] == inn[..n][t := o];
      RemainingDrops(u, inn[..n], t, o);
    } else {
      assert inn[t := o][..n] == inn[..n];
    }
  }

  lemma RiseShrinksRoom(u: set<Fact>, o: Option<State>, s: State)
    requires Inside(u, s) && (o.Some? ==> Inside(u, o.value) && Facts(o.value) < Facts(s))
    ensures Room(u, Some(s)) < Room(u, o)
  {
    if o.Some? {
      var f :| f in Facts(s) && f !in Facts(o.value);
      Smaller(u - Facts(s), u - Facts(o.value), f);
    } else {
      Larger(u - Facts(s), u);
    }
  }

  lemma Smaller(a: set<Fact>, b: set<Fact>, f: Fact)
    requires a <= b && f in b && f !in a
    ensures |a| < |b|
  {
    Larger(a, b - {f});
  }

  lemma {:induction false} Larger(a: set<Fact>, b: set<Fact>)
    requires a <= b
    ensures |a| <= |b|
    decreases |a|
  {
    if a != {} {
      var x :| x in a;
      Larger(a - {x}, b - {x});
    }
  }

  // ---- the engine ----

  /** What holds of a block that is not waiting: its effect is recorded and has flowed. */
  ghost predicate Processed(g: Cfg, f: Transfer, inn: States, out: States, b: nat)
    requires Shaped(g) && b < |g.blocks| == |inn| == |out|
  {
    Reached(inn, b) ==> out[b] == Some(BlockOut(g, f, b, inn[b].value)) && Flowed(g, f, inn, b)
  }

  /** The engine's invariant; block `busy` is being processed. */
  ghost predicate Inv(g: Cfg, f: Transfer, init: State, u: set<Fact>, inn: States, out: States, work: seq<nat>, busy: int) {
    && Shaped(g) && |inn| == |out| == |g.blocks| && |inn| > 0 && Arrived(inn, 0, init)
    && (forall b: nat :: Reached(inn, b) ==> Inside(u, inn[b].value))
    && (forall b :: b in work ==> Reached(inn, b))
    && (forall b: nat :: b < |g.blocks| && b != busy && b !in work ==> Processed(g, f, inn, out, b))
    && (forall b: nat :: b < |g.blocks| && out[b].Some? ==> Reached(inn, b))
  }

  /** State `s` raised at block `t`. */
  function Raised(inn: States, t: nat, s: State): State
    requires t < |inn|
  {
    match inn[t]
    case None => s
    case Some(was) => Merge(was, s)
  }

  lemma RaiseKeepsArrivals(inn: States, t: nat, s: State, b: nat, r: State)
    requires t < |inn| && Arrived(inn, b, r)
    ensures Arrived(inn[t := Some(Raised(inn, t, s))], b, r)
  {
    if b == t {
      MergeIsJoin(inn[t].value, s, s);
      BelowOrders(r, inn[t].value, Raised(inn, t, s));
    }
  }

  lemma RaiseArrives(inn: States, t: nat, s: State)
    requires t < |inn|
    ensures Arrived(inn[t := Some(Raised(inn, t, s))], t, s)
  {
    BelowOrders(s, s, s);
    if inn[t].Some? {
      MergeIsJoin(inn[t].value, s, s);
    }
  }

  lemma RaiseInside(u: set<Fact>, inn: States, t: nat, s: State)
    requires t < |inn| && Inside(u, s) && (Reached(inn, t) ==> Inside(u, inn[t].value))
    ensures Inside(u, Raised(inn, t, s))
  {
    if inn[t].Some? {
      FactsMerge(inn[t].value, s);
    }
  }

  /** A rise makes the measure smaller. */
  lemma RaiseShrinks(u: set<Fact>, inn: States, t: nat, s: State)
    requires t < |inn| && Inside(u, s) && (Reached(inn, t) ==> Inside(u, inn[t].value))
    requires inn[t].None? || Raised(inn, t, s) != inn[t].value
    ensures Remaining(u, inn[t := Some(Raised(inn, t, s))]) < Remaining(u, inn)
  {
    RaiseInside(u, inn, t, s);
    if inn[t].Some? {
      MergeGrows(inn[t].value, s);
    }
    RiseShrinksRoom(u, inn[t], Raised(inn, t, s));
    RemainingDrops(u, inn, t, Some(Raised(inn, t, s)));
  }

  lemma FlowedStays(g: Cfg, f: Transfer, inn: States, t: nat, s: State, b: nat)
    requires Shaped(g) && b < |g.blocks| && t < |inn| && b != t && Flowed(g, f, inn, b)
    ensures Flowed(g, f, inn[t := Some(Raised(inn, t, s))], b)
  {
    var up := inn[t := Some(Raised(inn, t, s))];
    if Reached(up, b) {
      assert Reached(inn, b) && up[b] == inn[b];
      forall k: nat | k < |g.succ[b]|
        ensures Arrived(up, g.succ[b][k], BlockOut(g, f, b, up[b].value))
      {
        RaiseKeepsArrivals(inn, t, s, g.succ[b][k], BlockOut(g, f, b, inn[b].value));
      }
    }
  }

  /** Raising block `t` and putting it on the worklist keeps the invariant. */
  lemma RaiseKeepsInv(g: Cfg, f: Transfer, init: State, u: set<Fact>, inn: States, out: States, work: seq<nat>, busy: int,
                      t: nat, s: State, work1: seq<nat>)
    requires Inv(g, f, init, u, inn, out, work, busy) && t < |inn| && Inside(u, s)
    requires forall b :: b in work1 <==> b in work || b == t
    ensures Inv(g, f, init, u, inn[t := Some(Raised(inn, t, s))], out, work1, busy)
  {
    var up := inn[t := Some(Raised(inn, t, s))];
    RaiseKeepsArrivals(inn, t, s, 0, init);
    RaiseInside(u, inn, t, s);
    forall b: nat | b < |g.blocks| && b != busy && b !in work1
      ensures Processed(g, f, up, out, b)
    {
      assert Processed(g, f, inn, out, b);
      if Reached(up, b) {
        FlowedStays(g, f, inn, t, s, b);
      }
    }
    forall b: nat | Reached(up, b)
      ensures Inside(u, up[b].value)
    {
      assert b != t ==> Reached(inn, b);
    }
    forall b | b in work1
      ensures Reached(up, b)
    {
      assert b != t ==> Reached(inn, b);
    }
    forall b: nat | b < |g.blocks| && out[b].Some?
      ensures Reached(up, b)
    {
      assert Reached(inn, b);
    }
  }

  // ---- below every solution ----

  ghost predicate Monotone(f: Transfer) {
    forall i: nat, s, r :: KeepsBelow(f, i, s, r)
  }

  ghost predicate KeepsBelow(f: Transfer, i: nat, s: State, r: State) {
    Below(s, r) ==> Below(f(i, s), f(i, r))
  }

  lemma {:induction false} ThroughMonotone(f: Transfer, s: State, r: State, lo: nat, hi: nat)
    requires Monotone(f) && Below(s, r)
    ensures Below(Through(f, s, lo, hi), Through(f, r, lo, hi))
    decreases hi
  {
    if lo < hi {
      ThroughMonotone(f, s, r, lo, hi - 1);
      assert KeepsBelow(f, hi - 1, Through(f, s, lo, hi - 1), Through(f, r, lo, hi - 1));
    }
  }

  ghost predicate Under(inn: States, x: States) {
    forall b: nat :: Reached(inn, b) ==> Arrived(x, b, inn[b].value)
  }

  /** With a monotone transfer function, nothing found so far exceeds any solution. */
  ghost predicate UnderSolutions(g: Cfg, f: Transfer, init: State, inn: States) {
    Monotone(f) ==> forall x :: Solution(g, f, init, x) ==> Under(inn, x)
  }

  lemma EffectUnder(g: Cfg, f: Transfer, init: State, inn: States, x: States, b: nat, k: nat)
    requires Monotone(f) && Solution(g, f, init, x) && Under(inn, x) && Reached(inn, b) && b < |g.blocks| && k < |g.succ[b]|
    ensures Arrived(x, g.succ[b][k], BlockOut(g, f, b, inn[b].value))
  {
    assert Arrived(x, b, inn[b].value) && Flowed(g, f, x, b);
    var s, r := BlockOut(g, f, b, inn[b].value), BlockOut(g, f, b, x[b].value);
    ThroughMonotone(f, inn[b].value, x[b].value, g.blocks[b].0, g.blocks[b].1);
    assert Arrived(x, g.succ[b][k], r);
    BelowOrders(s, r, x[g.succ[b][k]].value);
  }

  lemma RaiseUnder(inn: States, x: States, t: nat, s: State)
    requires Under(inn, x) && t < |inn| && Arrived(x, t, s)
    ensures Under(inn[t := Some(Raised(inn, t, s))], x)
  {
    var up := inn[t := Some(Raised(inn, t, s))];
    forall b: nat | Reached(up, b)
      ensures Arrived(x, b, up[b].value)
    {
      if b != t {
        assert Reached(inn, b);
      } else if inn[t].Some? {
        assert Reached(inn, t);
        MergeIsJoin(inn[t].value, s, x[t].value);
      }
    }
  }

  ghost predicate DueAt(g: Cfg, f: Transfer, init: State, t: nat, s: State) {
    Monotone(f) ==> forall x :: Solution(g, f, init, x) ==> Arrived(x, t, s)
  }

  lemma RaiseUnderSolutions(g: Cfg, f: Transfer, init: State, inn: States, t: nat, s: State)
    requires UnderSolutions(g, f, init, inn) && t < |inn| && DueAt(g, f, init, t, s)
    ensures UnderSolutions(g, f, init, inn[t := Some(Raised(inn, t, s))])
  {
    if Monotone(f) {
      forall x | Solution(g, f, init, x)
        ensures Under(inn[t := Some(Raised(inn, t, s))], x)
      {
        RaiseUnder(inn, x, t, s);
      }
    }
  }

  /** Later in-states: everything that had arrived still has. */
  ghost predicate Risen(inn: States, inn1: States) {
    |inn1| == |inn| && forall b: nat, r :: Arrived(inn, b, r) ==> Arrived(inn1, b, r)
  }

  /** Send `s` to block `t`. */
  method Send(g: Cfg, ghost f: Transfer, ghost init: State, ghost u: set<Fact>, inn: States, ghost out: States, work: seq<nat>,
              ghost busy: int, t: nat, s: State) returns (inn1: States, work1: seq<nat>)
    requires Inv(g, f, init, u, inn, out, work, busy) && t < |inn| && Inside(u, s)
    requires UnderSolutions(g, f, init, inn) && DueAt(g, f, init, t, s)
    ensures Inv(g, f, init, u, inn1, out, work1, busy) && UnderSolutions(g, f, init, inn1)
    ensures Arrived(inn1, t, s) && Risen(inn, inn1)
    ensures Advanced(u, inn, work, inn1, work1)
    ensures forall b: nat :: b < |inn| ==> inn1[b] == inn[b] || b in work1
    ensures forall b :: b in work ==> b in work1
  {
    inn1, work1 := inn, work;
    if inn[t].None? || Raised(inn, t, s) != inn[t].value {
      inn1 := inn[t := Some(Raised(inn, t, s))];
      if t !in work {
        work1 := work + [t];
      }
      RaiseKeepsInv(g, f, init, u, inn, out, work, busy, t, s, work1);
      RaiseUnderSolutions(g, f, init, inn, t, s);
      RaiseShrinks(u, inn, t, s);
      RaiseRises(inn, t, s);
    } else {
      NothingNew(inn, t, s);
    }
  }

  /** The state had arrived already. */
  lemma NothingNew(inn: States, t: nat, s: State)
    requires t < |inn| && inn[t] == Some(Raised(inn, t, s))
    ensures Arrived(inn, t, s) && Risen(inn, inn)
  {
    RaiseArrives(inn, t, s);
    assert inn[t := Some(Raised(inn, t, s))] == inn;
  }

  lemma RaiseRises(inn: States, t: nat, s: State)
    requires t < |inn|
    ensures Risen(inn, inn[t := Some(Raised(inn, t, s))]) && Arrived(inn[t := Some(Raised(inn, t, s))], t, s)
  {
    RaiseArrives(inn, t, s);
    forall b: nat, r | Arrived(inn, b, r)
      ensures Arrived(inn[t := Some(Raised(inn, t, s))], b, r)
    {
      RaiseKeepsArrivals(inn, t, s, b, r);
    }
  }

  /** Run a block's commands on a copy of its in-state. */
  method RunBlock(g: Cfg, f: Transfer, b: nat, s0: State) returns (s: State)
    requires b < |g.blocks| && g.blocks[b].0 <= g.blocks[b].1
    ensures s == BlockOut(g, f, b, s0)
  {
    s := s0;
    var (start, end) := g.blocks[b];
    for i := start to end
      invariant s == Through(f, s0, start, i)
    {
      s := f(i, s);
    }
  }

  lemma BlockDue(g: Cfg, f: Transfer, init: State, inn: States, b: nat, k: nat)
    requires UnderSolutions(g, f, init, inn) && Shaped(g) && Reached(inn, b) && b < |g.blocks| && k < |g.succ[b]|
    ensures DueAt(g, f, init, g.succ[b][k], BlockOut(g, f, b, inn[b].value))
  {
    if Monotone(f) {
      forall x | Solution(g, f, init, x)
        ensures Arrived(x, g.succ[b][k], BlockOut(g, f, b, inn[b].value))
      {
        EffectUnder(g, f, init, inn, x, b, k);
      }
    }
  }

  /** Process one block: record its effect and send it to each successor. */
  method Process(g: Cfg, f: Transfer, ghost init: State, ghost u: set<Fact>, inn0: States, out0: States, work0: seq<nat>, b: nat)
    returns (inn: States, out: States, work: seq<nat>)
    requires Inv(g, f, init, u, inn0, out0, work0, b) && UnderSolutions(g, f, init, inn0) && Closed(u, f)
    requires Reached(inn0, b) && b < |g.blocks| && g.blocks[b].0 <= g.blocks[b].1
    ensures Inv(g, f, init, u, inn, out, work, -1) && UnderSolutions(g, f, init, inn)
    ensures Advanced(u, inn0, work0, inn, work)
  {
    var s := RunBlock(g, f, b, inn0[b].value);
    out := out0[b := Some(s)];
    ThroughInside(u, f, inn0[b].value, g.blocks[b].0, g.blocks[b].1);
    Recorded(g, f, init, u, inn0, out0, work0, b, s);
    forall k: nat | k < |g.succ[b]|
      ensures DueAt(g, f, init, g.succ[b][k], s)
    {
      BlockDue(g, f, init, inn0, b, k);
    }
    inn, work := SendAll(g, f, init, u, inn0, out, work0, b, s);
    Finished(g, f, init, u, inn0, inn, out, work, b);
  }

  /** Block `b` is not waiting only if its in-state has not risen meanwhile. */
  lemma Finished(g: Cfg, f: Transfer, init: State, u: set<Fact>, inn0: States, inn: States, out: States, work: seq<nat>, b: nat)
    requires Inv(g, f, init, u, inn, out, work, b) && b < |g.blocks| == |inn0| && Reached(inn0, b)
    requires inn[b] == inn0[b] || b in work
    requires out[b] == Some(BlockOut(g, f, b, inn0[b].value))
    requires Sent(inn, g.succ[b], |g.succ[b]|, BlockOut(g, f, b, inn0[b].value))
    ensures Inv(g, f, init, u, inn, out, work, -1)
  {
    assert b !in work ==> Processed(g, f, inn, out, b);
  }

  /** `s` has arrived at the first `k` of the blocks `to`. */
  ghost predicate Sent(inn: States, to: seq<nat>, k: nat, s: State)
    requires k <= |to|
  {
    forall j: nat :: j < k ==> Arrived(inn, to[j], s)
  }

  lemma SentOne(inn: States, inn1: States, to: seq<nat>, k: nat, s: State)
    requires k < |to| && Sent(inn, to, k, s) && Risen(inn, inn1) && Arrived(inn1, to[k], s)
    ensures Sent(inn1, to, k + 1, s)
  {
    forall j: nat | j < k + 1
      ensures Arrived(inn1, to[j], s)
    {
      assert j < k ==> Arrived(inn, to[j], s);
    }
  }

  /** What a call has done to the pair of in-states and worklist: nothing, or less room is left. */
  ghost predicate Advanced(u: set<Fact>, inn0: States, work0: seq<nat>, inn: States, work: seq<nat>) {
    (inn == inn0 && work == work0) || Remaining(u, inn) < Remaining(u, inn0)
  }

  lemma AdvancedAgain(u: set<Fact>, inn0: States, work0: seq<nat>, inn1: States, work1: seq<nat>, inn2: States, work2: seq<nat>)
    requires Advanced(u, inn0, work0, inn1, work1) && Advanced(u, inn1, work1, inn2, work2)
    ensures Advanced(u, inn0, work0, inn2, work2)
  {
  }

  /** Send a block's effect to each of its successors. */
  method SendAll(g: Cfg, ghost f: Transfer, ghost init: State, ghost u: set<Fact>, inn0: States, ghost out: States, work0: seq<nat>,
                 b: nat, s: State) returns (inn: States, work: seq<nat>)
    requires Inv(g, f, init, u, inn0, out, work0, b) && UnderSolutions(g, f, init, inn0) && b < |g.blocks| && Inside(u, s)
    requires forall k: nat :: k < |g.succ[b]| ==> DueAt(g, f, init, g.succ[b][k], s)
    ensures Inv(g, f, init, u, inn, out, work, b) && UnderSolutions(g, f, init, inn)
    ensures Advanced(u, inn0, work0, inn, work)
    ensures inn[b] == inn0[b] || b in work
    ensures Sent(inn, g.succ[b], |g.succ[b]|, s)
  {
    inn, work := inn0, work0;
    for k := 0 to |g.succ[b]|
      invariant Inv(g, f, init, u, inn, out, work, b) && UnderSolutions(g, f, init, inn)
      invariant Advanced(u, inn0, work0, inn, work)
      invariant inn[b] == inn0[b] || b in work
      invariant Sent(inn, g.succ[b], k, s)
    {
      var inn1, work1 := Send(g, f, init, u, inn, out, work, b, g.succ[b][k], s);
      SentOne(inn, inn1, g.succ[b], k, s);
      AdvancedAgain(u, inn0, work0, inn, work, inn1, work1);
      inn, work := inn1, work1;
    }
  }

  lemma Recorded(g: Cfg, f: Transfer, init: State, u: set<Fact>, inn: States, out: States, work: seq<nat>, b: nat, s: State)
    requires Inv(g, f, init, u, inn, out, work, b) && b < |g.blocks| && Reached(inn, b)
    ensures Inv(g, f, init, u, inn, out[b := Some(s)], work, b)
  {
    var out1 := out[b := Some(s)];
    forall c: nat | c < |g.blocks| && c != b && c !in work
      ensures Processed(g, f, inn, out1, c)
    {
      assert Processed(g, f, inn, out, c);
    }
  }

  ghost predicate ProperBlocks(g: Cfg) {
    Shaped(g) && forall b: nat :: b < |g.blocks| ==> g.blocks[b].0 <= g.blocks[b].1
  }

  /** The whole engine: it terminates, its in-states solve the flow equations and lie
      below every other solution, and each out-state is its block's effect. */
  method Solve(g: Cfg, f: Transfer, init: State, ghost u: set<Fact>) returns (inn: States, out: States)
    requires ProperBlocks(g) && |g.blocks| > 0 && Inside(u, init) && Closed(u, f)
    ensures Solution(g, f, init, inn) && UnderSolutions(g, f, init, inn)
    ensures |out| == |inn| && forall b: nat :: b < |inn| ==>
              out[b] == if inn[b].Some? then Some(BlockOut(g, f, b, inn[b].value)) else None
  {
    var n := |g.blocks|;
    inn, out := seq(n, _ => None), seq(n, _ => None);
    inn := inn[0 := Some(init)];
    var work := [0];
    Begins(g, f, init, u, inn, out);
    while work != []
      invariant Inv(g, f, init, u, inn, out, work, -1) && UnderSolutions(g, f, init, inn)
      decreases Remaining(u, inn), |work|
    {
      var b := work[|work| - 1];
      ghost var before := work;
      work := work[..|work| - 1];
      Popped(g, f, init, u, inn, out, before, b);
      inn, out, work := Process(g, f, init, u, inn, out, work, b);
    }
    forall b: nat | b < |g.blocks|
      ensures Flowed(g, f, inn, b) && out[b] == if inn[b].Some? then Some(BlockOut(g, f, b, inn[b].value)) else None
    {
      assert Processed(g, f, inn, out, b);
    }
  }

  lemma Begins(g: Cfg, f: Transfer, init: State, u: set<Fact>, inn: States, out: States)
    requires Shaped(g) && |inn| == |out| == |g.blocks| > 0 && Inside(u, init)
    requires inn[0] == Some(init) && (forall b :: 0 < b < |inn| ==> inn[b].None?) && (forall b :: 0 <= b < |out| ==> out[b].None?)
    ensures Inv(g, f, init, u, inn, out, [0], -1) && UnderSolutions(g, f, init, inn)
  {
    BelowOrders(init, init, init);
    assert forall b: nat :: Reached(inn, b) ==> b == 0;
  }

  lemma Popped(g: Cfg, f: Transfer, init: State, u: set<Fact>, inn: States, out: States, work: seq<nat>, b: nat)
    requires Inv(g, f, init, u, inn, out, work, -1) && work != [] && b == work[|work| - 1]
    ensures Reached(inn, b) && Inv(g, f, init, u, inn, out, work[..|work| - 1], b)
  {
    assert b in work;
    forall c: nat | c < |g.blocks| && c != b && c !in work[..|work| - 1]
      ensures Processed(g, f, inn, out, c)
    {
      assert work == work[..|work| - 1] + [b];
      assert c !in work;
    }
  }

  /** The states at the function's exits, or the entry's if there is no exit. */
  /** The exit states are those of the reached blocks without successors; if there is
      none, the entry block's, or the initial state if that is not reached either. */
  ghost predicate ExitsAre(g: Cfg, out: States, init: State, exits: seq<State>)
    requires Shaped(g) && |out| == |g.blocks|
  {
    && exits != []
    && ((exists b: nat :: b < |out| && out[b].Some? && g.succ[b] == []) ==>
          forall s :: s in exits <==> exists b: nat :: b < |out| && out[b] == Some(s) && g.succ[b] == [])
    && ((forall b: nat :: b < |out| && out[b].Some? ==> g.succ[b] != []) ==>
          exits == [if |out| > 0 && out[0].Some? then out[0].value else init])
  }

  method Exits(g: Cfg, out: States, init: State) returns (exits: seq<State>)
    requires Shaped(g) && |out| == |g.blocks|
    ensures ExitsAre(g, out, init, exits)
  {
    exits := [];
    for b := 0 to |out|
      invariant forall s :: s in exits <==> exists c: nat :: c < b && out[c] == Some(s) && g.succ[c] == []
    {
      if out[b].Some? && g.succ[b] == [] {
        exits := exits + [out[b].value];
      }
    }
    if exits == [] {
      forall b: nat | b < |out| && out[b].Some?
        ensures g.succ[b] != []
      {
        assert out[b].value !in exits;
      }
      exits := [if |out| > 0 && out[0].Some? then out[0].value else init];
    } else {
      assert exits[0] in exits;
    }
  }

  // ---- every control path is covered ----

  /** The state in front of the `k`-th command of a path. */
  function PathState(f: Transfer, init: State, path: seq<nat>, k: nat): State
    requires k < |path|
  {
    if k == 0 then init else f(path[k - 1], PathState(f, init, path, k - 1))
  }

  ghost predicate ControlPath(p: seq<Cmd>, path: seq<nat>) {
    && path != [] && path[0] == 0
    && (forall k :: 0 <= k < |path| ==> path[k] < |p|)
    && (forall k :: 0 < k < |path| ==> path[k] in Succ(p, path[k - 1]))
  }

  lemma EdgeInRange(p: seq<Cmd>, g: Cfg, b: nat, k: nat)
    requires IsCfg(p, g) && b < |g.succ| && k < |g.succ[b]|
    ensures g.succ[b][k] < |g.blocks|
  {
    assert BlockAt(p, g.blocks, b);
    assert EdgesAre(p, g.blocks, g.blockOf, b, g.succ[b]) && LeadsTo(p, g.blocks, g.blockOf, b, g.succ[b][k]);
    var s :| s in Succ(p, g.blocks[b].1 - 1) && g.blockOf[s] == g.succ[b][k];
    assert InBlock(g.blocks, g.blockOf[s], s);
  }

  lemma CfgShaped(p: seq<Cmd>, g: Cfg)
    requires IsCfg(p, g)
    ensures ProperBlocks(g) && (p != [] ==> |g.blocks| > 0)
  {
    forall b: nat, k: nat | b < |g.succ| && k < |g.succ[b]|
      ensures g.succ[b][k] < |g.blocks|
    {
      EdgeInRange(p, g, b, k);
    }
    forall b: nat | b < |g.blocks|
      ensures g.blocks[b].0 <= g.blocks[b].1
    {
      assert BlockAt(p, g.blocks, b);
    }
  }

  /** The abstract state computed along any control path from the entry lies below
      what the solution gives at the path's end. */
  lemma {:induction false} PathsCovered(p: seq<Cmd>, g: Cfg, f: Transfer, init: State, inn: States, path: seq<nat>, k: nat)
    requires IsCfg(p, g) && Solution(g, f, init, inn) && Monotone(f) && ControlPath(p, path) && k < |path|
    ensures var b := g.blockOf[path[k]];
            && InBlock(g.blocks, b, path[k]) && Reached(inn, b)
            && Below(PathState(f, init, path, k), Through(f, inn[b].value, g.blocks[b].0, path[k]))
  {
    var i := path[k];
    assert InBlock(g.blocks, g.blockOf[i], i);
    if k == 0 {
      EntryBlock(p, g);
    } else {
      PathsCovered(p, g, f, init, inn, path, k - 1);
      PathStep(p, g, f, init, inn, path[k - 1], i, PathState(f, init, path, k - 1));
    }
  }

  lemma EntryBlock(p: seq<Cmd>, g: Cfg)
    requires IsCfg(p, g) && p != []
    ensures g.blockOf[0] == 0 && |g.blocks| > 0 && g.blocks[0].0 == 0
  {
    assert InBlock(g.blocks, g.blockOf[0], 0);
    assert BlockAt(p, g.blocks, 0);
    OneBlock(p, g, 0, 0);
  }

  lemma PathStep(p: seq<Cmd>, g: Cfg, f: Transfer, init: State, inn: States, i: nat, j: nat, s: State)
    requires IsCfg(p, g) && Solution(g, f, init, inn) && Monotone(f) && i < |p| && j in Succ(p, i)
    requires Reached(inn, g.blockOf[i]) && InBlock(g.blocks, g.blockOf[i], i)
    requires Below(s, Through(f, inn[g.blockOf[i]].value, g.blocks[g.blockOf[i]].0, i))
    ensures var c := g.blockOf[j];
            && InBlock(g.blocks, c, j) && Reached(inn, c)
            && Below(f(i, s), Through(f, inn[c].value, g.blocks[c].0, j))
  {
    var b, c := g.blockOf[i], g.blockOf[j];
    var mid := Through(f, inn[b].value, g.blocks[b].0, i);
    StepsFollowEdges(p, g, i, j);
    assert KeepsBelow(f, i, s, mid);
    if !(j == i + 1 && c == b) {
      CfgShaped(p, g);
      EdgeCrossed(g, f, init, inn, b, c, i);
      BelowOrders(f(i, s), f(i, mid), inn[c].value);
    }
  }

  /** A block's effect has arrived at the block an edge leads to. */
  lemma EdgeCrossed(g: Cfg, f: Transfer, init: State, inn: States, b: nat, c: nat, i: nat)
    requires Solution(g, f, init, inn) && ProperBlocks(g) && b < |g.blocks| && Reached(inn, b)
    requires g.blocks[b].0 <= i && i + 1 == g.blocks[b].1 && c in g.succ[b]
    ensures Arrived(inn, c, f(i, Through(f, inn[b].value, g.blocks[b].0, i)))
  {
    assert Flowed(g, f, inn, b);
    var k: nat :| k < |g.succ[b]| && g.succ[b][k] == c;
    assert Arrived(inn, g.succ[b][k], BlockOut(g, f, b, inn[b].value));
  }

  /** The analysis of one function from its command list: the least solution, and the
      effects of the reached blocks it leaves through. */
  method Analyze(p: seq<Cmd>, f: Transfer, init: State, ghost u: set<Fact>) returns (g: Cfg, inn: States, out: States, exits: seq<State>)
    requires Inside(u, init) && Closed(u, f)
    ensures IsCfg(p, g) && Shaped(g) && (p == [] ==> exits == [init])
    ensures p != [] ==> ProperBlocks(g) && Solution(g, f, init, inn) && UnderSolutions(g, f, init, inn)
    ensures p != [] ==> |out| == |inn| == |g.blocks| && ExitsAre(g, out, init, exits)
    ensures p != [] ==> forall b: nat :: b < |inn| ==> out[b] == if inn[b].Some? then Some(BlockOut(g, f, b, inn[b].value)) else None
  {
    g := BuildCfg(p);
    CfgShaped(p, g);
    inn, out, exits := [], [], [init];
    if |g.blocks| > 0 {
      inn, out := Solve(g, f, init, u);
      exits := Exits(g, out, init);
    }
    if p == [] {
      NoBlocks(g);
    }
  }

  lemma NoBlocks(g: Cfg)
    requires IsCfg([], g)
    ensures g.blocks == []
  {
    assert g.blocks != [] ==> !BlockAt([], g.blocks, |g.blocks| - 1);
  }
}
