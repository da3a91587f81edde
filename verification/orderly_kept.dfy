/** A rewrite leaves orderly code orderly, so the condition is checked once. */
module OrderlyKept {
  import opened IL
  import opened UseCounts
  import opened AddressTrace
  import opened StrengthReduction
  import opened ReducedLoop
  import opened ReducedCode
  import opened ReductionPass
  import opened OrderlyCode

  // ---- where commands come from ----

  /** Where command `i` of the old function is in the new one. */
  function NewPos(start: nat, back: nat, s: set<nat>, i: nat): nat {
    if i in s then start + Within(s, start + 1, i)
    else if i == back then back + 2
    else Pos(start, back, s, i)
  }

  lemma {:induction false} WithinRoom(s: set<nat>, lo: nat, hi: nat)
    requires lo <= hi
    ensures Within(s, lo, hi) <= hi - lo
  {
    if lo < hi {
      WithinRoom(s, lo, hi - 1);
    }
  }

  /** Commands that stay keep their order. */
  lemma StaysInOrder(p: seq<Cmd>, start: nat, back: nat, s: set<nat>, i: nat, j: nat)
    requires Movable(p, start, back, s) && i < j && i !in s && j !in s
    ensures NewPos(start, back, s, i) < NewPos(start, back, s, j)
  {
    if start <= i && j <= back {
      WithinSplits(s, i, j, back);
      WithinSplits(s, i, i + 1, j);
      WithinRoom(s, i + 1, j);
      assert Within(s, i, i + 1) == 0;
    } else if start <= i < back {
      WithinRoom(s, i, back);
    }
  }

  /** A moved command lies between what stays in front of the loop and its label. */
  lemma MovedBetween(p: seq<Cmd>, start: nat, back: nat, s: set<nat>, d: nat)
    requires Movable(p, start, back, s) && d in s
    ensures start <= NewPos(start, back, s, d) < NewPos(start, back, s, start)
  {
    WithinSplits(s, start + 1, d, back);
    WithinSplits(s, d, d + 1, back);
    WithinSplits(s, start, start + 1, back);
    assert Within(s, d, d + 1) == 1 && Within(s, start, start + 1) == 0;
  }

  lemma MovedInOrder(start: nat, s: set<nat>, d: nat, e: nat)
    requires d in s && start < d < e
    ensures Within(s, start + 1, d) < Within(s, start + 1, e)
  {
    WithinSplits(s, start + 1, d, e);
    WithinSplits(s, d, d + 1, e);
    assert Within(s, d, d + 1) == 1;
  }

  /** No two commands end up in one place. */
  lemma PlacesDiffer(p: seq<Cmd>, start: nat, back: nat, s: set<nat>, i: nat, j: nat)
    requires Movable(p, start, back, s) && i < j
    ensures NewPos(start, back, s, i) != NewPos(start, back, s, j)
  {
    if i in s && j in s {
      MovedInOrder(start, s, i, j);
    } else if i !in s && j !in s {
      StaysInOrder(p, start, back, s, i, j);
    } else {
      var d, k := if i in s then i else j, if i in s then j else i;
      MovedBetween(p, start, back, s, d);
      if k > start {
        StaysInOrder(p, start, back, s, start, k);
      }
    }
  }

  lemma {:induction false} MovedFrom(s: set<nat>, lo: nat, hi: nat, n: nat) returns (d: nat)
    requires lo <= hi && n < Within(s, lo, hi)
    ensures d in s && lo <= d < hi && Within(s, lo, d) == n
    decreases hi
  {
    if hi - 1 in s && n == Within(s, lo, hi - 1) {
      d := hi - 1;
    } else {
      d := MovedFrom(s, lo, hi - 1, n);
    }
  }

  lemma {:induction false} StayedFrom(s: set<nat>, lo: nat, hi: nat, n: nat) returns (i: nat)
    requires lo <= hi && n < hi - lo - Within(s, lo, hi)
    ensures i !in s && lo <= i < hi && i - lo - Within(s, lo, i) == n
    decreases hi
  {
    if hi - 1 !in s && n == hi - 1 - lo - Within(s, lo, hi - 1) {
      i := hi - 1;
    } else {
      i := StayedFrom(s, lo, hi - 1, n);
    }
  }

  /** Every command of the new function but the two advancing ones was there before. */
  lemma Origin(p: seq<Cmd>, start: nat, back: nat, s: set<nat>, n: nat) returns (i: nat)
    requires Movable(p, start, back, s) && n < |p| + 2 && n != back && n != back + 1
    ensures i < |p| && NewPos(start, back, s, i) == n
  {
    var w := Within(s, start + 1, back);
    WithinSplits(s, start, start + 1, back);
    WithinRoom(s, start + 1, back);
    assert Within(s, start, start + 1) == 0;
    if n < start {
      i := n;
    } else if n < start + w {
      i := MovedFrom(s, start + 1, back, n - start);
    } else if n == start + w {
      i := start;
    } else if n < back {
      i := StayedFrom(s, start + 1, back, n - start - w - 1);
      WithinSplits(s, start + 1, i, back);
    } else {
      i := n - 2;
    }
  }

  /** What a rewrite does, as seen by everything below. */
  datatype Shift = Shift(p: seq<Cmd>, q: seq<Cmd>, start: nat, back: nat, s: set<nat>, addr: Value, stride: int, tmp: Value) {
    function At(i: nat): nat { NewPos(start, back, s, i) }
  }

  ghost predicate Shifted(k: Shift) {
    && Movable(k.p, k.start, k.back, k.s) && |k.q| == |k.p| + 2
    && (forall i: nat {:trigger k.At(i)} :: i < |k.p| ==> SamePlace(k, i))
    && k.q[k.back] == Op(Add, [Temp(k.addr), Lit(k.stride)], [Temp(k.tmp)]) && k.q[k.back + 1] == Set(Temp(k.addr), Temp(k.tmp))
  }

  ghost predicate SamePlace(k: Shift, i: nat) {
    i < |k.p| && k.At(i) < |k.q| && k.q[k.At(i)] == k.p[i] && k.At(i) != k.back && k.At(i) != k.back + 1
  }

  lemma RewriteShifts(k: Shift)
    requires Movable(k.p, k.start, k.back, k.s) && k.q == Rewritten(k.p, k.start, k.back, k.s, k.addr, k.stride, k.tmp)
    ensures Shifted(k)
  {
    NewLength(k.p, k.start, k.back, k.s, k.addr, k.stride, k.tmp);
    AdvanceAt(k.p, k.start, k.back, k.s, k.addr, k.stride, k.tmp);
    forall i: nat | i < |k.p|
      ensures SamePlace(k, i)
    {
      if i in k.s {
        MovedAt(k.p, k.start, k.back, k.s, k.addr, k.stride, k.tmp, i);
        MovedBetween(k.p, k.start, k.back, k.s, i);
        WithinRoom(k.s, k.start, k.back);
        WithinSplits(k.s, k.start, i, k.back);
        WithinSplits(k.s, i, i + 1, k.back);
      } else if i != k.back {
        StaysAt(k.p, k.start, k.back, k.s, k.addr, k.stride, k.tmp, i);
        if i < k.back {
          StaysInOrder(k.p, k.start, k.back, k.s, i, k.back);
          BelowBack(k.p, k.start, k.back, k.s, i);
        }
      }
    }
  }

  lemma BelowBack(p: seq<Cmd>, start: nat, back: nat, s: set<nat>, i: nat)
    requires Movable(p, start, back, s) && i < back && i !in s
    ensures Pos(start, back, s, i) < back
  {
    if i >= start {
      WithinSplits(s, i, i + 1, back);
      WithinRoom(s, i + 1, back);
      assert Within(s, i, i + 1) == 0;
    }
  }

  /** A command of the new function is an old one or one of the two new ones. */
  lemma From(k: Shift, n: nat) returns (i: nat)
    requires Shifted(k) && n < |k.q| && n != k.back && n != k.back + 1
    ensures i < |k.p| && k.At(i) == n && k.q[n] == k.p[i]
  {
    i := Origin(k.p, k.start, k.back, k.s, n);
    assert SamePlace(k, i);
  }

  // ---- what feeds an address ----

  /** The rewrite of an accepted reduction in orderly code. */
  ghost predicate Rewriting(k: Shift, at: nat) {
    && Shifted(k) && k.q == Rewritten(k.p, k.start, k.back, k.s, k.addr, k.stride, k.tmp) && IsLoop(k.p, k.start, k.back) && Orderly(k.p) && Unused(k.p, k.tmp)
    && OnlyUse(k.p, k.addr, at) && at !in k.s && ShapeOf(k.p[at]).Untraceable?
    && (forall d :: d in k.s ==> !ShapeOf(k.p[d]).Untraceable?)
    && (forall j: nat, d: nat, v, n: nat :: MovedUse(k, j, d, v, n))
  }

  /** A moved command reads nothing that feeds an address and stays in the body. */
  ghost predicate MovedUse(k: Shift, j: nat, d: nat, v: Value, n: nat) {
    j in k.s && UsedAt(k.p, v, j) && k.start < d < k.back && DefinedAt(k.p, v, d) && !ShapeOf(k.p[d]).Untraceable? && Feeds(k.p, v, n) ==>
      d in k.s
  }

  lemma MovedUseHolds(p: seq<Cmd>, r: Reduction, j: nat, d: nat, v: Value, n: nat)
    requires Accepted(p, r) && Orderly(p) && j in ChainOf(p, r) && UsedAt(p, v, j)
    requires r.start < d < r.back && DefinedAt(p, v, d) && !ShapeOf(p[d]).Untraceable? && Feeds(p, v, n)
    ensures d in ChainOf(p, r)
  {
    assert IsLoop(p, r.start, r.back) && OrderlyLoop(p, r.start, r.back);
    assert FedInOrder(p, r.start, r.back, d, v, n);
    assert v in r.t.defOf && DefinedAt(p, v, r.t.defOf[v]) && r.t.defOf[v] == d;
    if v in r.t.ivs {
      IvUsedFirst(p, r, d, v);
      assert false;
    }
    ChainReads(p, r, j, v);
  }

  /** An induction variable is used before it is updated. */
  lemma IvUsedFirst(p: seq<Cmd>, r: Reduction, d: nat, v: Value)
    requires r.start < r.back <= |p| && TablesOf(p, r.start, r.back, r.t) && Fits(p, r.t) && OrderlyLoop(p, r.start, r.back)
    requires v in r.t.ivs && v in r.t.defOf && r.t.defOf[v] == d
    ensures !UsedAfter(p, v, d)
  {
    IvSites(p, r.start, r.back, r.t.defOf, v);
    var tv := p[d].arg.v;
    assert p[d] == Set(Temp(v), Temp(tv));
    assert StepInOrder(p, r.start, r.back, d, r.t.defOf[tv], v, tv);
    assert UsedAt(p, v, r.t.defOf[tv]);
  }

  /** What a command of the chain reads is computed by the chain, an induction
      variable, or not computed in the body. */
  lemma ChainReads(p: seq<Cmd>, r: Reduction, j: nat, v: Value)
    requires Fits(p, r.t) && Trace(p, r.t, Temp(r.addr), 0).Some? && j in ChainOf(p, r) && UsedAt(p, v, j)
    requires v in r.t.defOf && v !in r.t.ivs
    ensures r.t.defOf[v] in ChainOf(p, r)
  {
    ChainIsLinks(p, r.t, Temp(r.addr), 0, j);
    var o :| Link(p, r.t, j, o) && Chain(p, r.t, Temp(o), 0) <= ChainOf(p, r);
    LinkTraceable(p, r.t, j, o);
    assert Reads(ShapeOf(p[j]), Temp(v));
    LinkReads(p, r.t, j, o, Temp(v));
  }

  lemma AcceptedRewrites(p: seq<Cmd>, r: Reduction, tmp: Value) returns (k: Shift)
    requires Accepted(p, r) && Orderly(p) && Unused(p, tmp)
    ensures k.p == p && k.q == ApplyOne(p, r, tmp) && k.addr == r.addr && k.tmp == tmp && Rewriting(k, r.at)
  {
    var s := ChainOf(p, r);
    k := Shift(p, ApplyOne(p, r, tmp), r.start, r.back, s, r.addr, r.stride, tmp);
    forall d | d in s
      ensures r.start < d < r.back && !ShapeOf(p[d]).Untraceable?
    {
      var _ := ChainInOrder(p, r, d);
    }
    RewriteShifts(k);
    OrderlyIsRegular(p, r, tmp);
    AcceptedPlanned(p, r, tmp);
    AccessNotMoved(p, r, tmp);
    AddressFeeds(p, r);
    AddressUsedOnce(p, r);
    forall j: nat, d: nat, v, n: nat
      ensures MovedUse(k, j, d, v, n)
    {
      if j in s && UsedAt(p, v, j) && r.start < d < r.back && DefinedAt(p, v, d) && !ShapeOf(p[d]).Untraceable? && Feeds(p, v, n) {
        MovedUseHolds(p, r, j, d, v, n);
      }
    }
  }

  lemma NewUses(k: Shift, v: Value)
    requires Shifted(k)
    ensures UsedAt(k.q, v, k.back) <==> v == k.addr
    ensures UsedAt(k.q, v, k.back + 1) <==> v == k.tmp
    ensures DefinedAt(k.q, v, k.back) <==> v == k.tmp
    ensures DefinedAt(k.q, v, k.back + 1) <==> v == k.addr
  {
  }

  /** The pointer is used twice now. */
  lemma PointerFeedsNothing(k: Shift, at: nat, n: nat)
    requires Rewriting(k, at)
    ensures !Feeds(k.q, k.addr, n)
  {
    NewUses(k, k.addr);
    assert SamePlace(k, at) && UsedAt(k.p, k.addr, at);
    assert UsedAt(k.q, k.addr, k.At(at)) && UsedAt(k.q, k.addr, k.back);
    forall j: nat
      ensures !FeedsAt(k.q, k.addr, n, j)
    {
    }
  }

  /** What advances it is used for nothing else. */
  lemma AdvanceFeedsNothing(k: Shift, at: nat, n: nat)
    requires Rewriting(k, at)
    ensures !Feeds(k.q, k.tmp, n)
  {
    NewUses(k, k.tmp);
    assert UsedAt(k.q, k.tmp, k.back + 1) && Outputs(k.q[k.back + 1]) == [Temp(k.addr)];
    if n > 0 {
      PointerFeedsNothing(k, at, n - 1);
    }
    forall j: nat
      ensures !FeedsAt(k.q, k.tmp, n, j)
    {
      assert j == k.back + 1 || !OnlyUse(k.q, k.tmp, j);
    }
  }

  lemma OldUse(k: Shift, at: nat, v: Value, j: nat) returns (i: nat)
    requires Rewriting(k, at) && v != k.addr && v != k.tmp && UsedAt(k.q, v, j)
    ensures i < |k.p| && k.At(i) == j && k.q[j] == k.p[i] && UsedAt(k.p, v, i)
  {
    NewUses(k, v);
    i := From(k, j);
  }

  lemma OldDef(k: Shift, at: nat, v: Value, j: nat) returns (i: nat)
    requires Rewriting(k, at) && v != k.addr && v != k.tmp && DefinedAt(k.q, v, j)
    ensures i < |k.p| && k.At(i) == j && k.q[j] == k.p[i] && DefinedAt(k.p, v, i)
  {
    NewUses(k, v);
    i := From(k, j);
  }

  /** What feeds an address now did so before. */
  lemma {:induction false} FedBefore(k: Shift, at: nat, v: Value, n: nat)
    requires Rewriting(k, at) && Feeds(k.q, v, n)
    ensures v != k.addr && v != k.tmp && Feeds(k.p, v, n)
    decreases n
  {
    PointerFeedsNothing(k, at, n);
    AdvanceFeedsNothing(k, at, n);
    var j: nat :| FeedsAt(k.q, v, n, j);
    var i := OldUse(k, at, v, j);
    forall i1: nat | UsedAt(k.p, v, i1)
      ensures i1 == i
    {
      assert SamePlace(k, i1) && UsedAt(k.q, v, k.At(i1));
      if i1 < i {
        PlacesDiffer(k.p, k.start, k.back, k.s, i1, i);
      } else if i < i1 {
        PlacesDiffer(k.p, k.start, k.back, k.s, i, i1);
      }
    }
    if AddressOf(k.q[j]) != Some(v) {
      var w :| Temp(w) in Outputs(k.q[j]) && Feeds(k.q, w, n - 1);
      FedBefore(k, at, w, n - 1);
    }
    assert FeedsAt(k.p, v, n, i);
  }

  // ---- loops ----

  lemma StaysPut(k: Shift, at: nat, i: nat)
    requires Rewriting(k, at) && i < |k.p| && (k.p[i].Label? || IsJump(k.p[i]))
    ensures i !in k.s
  {
  }

  lemma Backwards(k: Shift, i: nat, j: nat)
    requires Shifted(k) && i !in k.s && j !in k.s
    ensures k.At(i) < k.At(j) <==> i < j
    ensures k.At(i) == k.At(j) <==> i == j
  {
    if i < j {
      StaysInOrder(k.p, k.start, k.back, k.s, i, j);
    } else if j < i {
      StaysInOrder(k.p, k.start, k.back, k.s, j, i);
    }
  }

  lemma TargetsMove(k: Shift, at: nat, l: nat)
    requires Rewriting(k, at)
    ensures TargetIn(k.q, l) == if TargetIn(k.p, l).Some? then Some(k.At(TargetIn(k.p, l).value)) else None
  {
    TargetMoves(k.p, k.start, k.back, k.s, k.addr, k.stride, k.tmp, l);
  }

  /** A loop of the new function was one of the old. */
  lemma OldLoop(k: Shift, at: nat, start: nat, back: nat) returns (s1: nat, b1: nat)
    requires Rewriting(k, at) && IsLoop(k.q, start, back)
    ensures s1 < |k.p| && b1 < |k.p| && s1 !in k.s && b1 !in k.s && k.At(s1) == start && k.At(b1) == back
    ensures IsLoop(k.p, s1, b1)
  {
    s1 := From(k, start);
    b1 := From(k, back);
    StaysPut(k, at, s1);
    StaysPut(k, at, b1);
    Backwards(k, s1, b1);
    OldTarget(k, at, s1, b1);
    forall j: nat | JumpAt(k.p, j) && k.p[j].target == k.p[s1].name
      ensures j == b1
    {
      StaysPut(k, at, j);
      assert SamePlace(k, j) && JumpAt(k.q, k.At(j));
      Backwards(k, j, b1);
    }
    forall j: nat | s1 < j <= b1
      ensures !k.p[j].Label?
    {
      assert SamePlace(k, j);
      if k.p[j].Label? {
        StaysPut(k, at, j);
        Backwards(k, s1, j);
        Backwards(k, j, b1);
        assert false;
      }
    }
    forall j: nat | s1 < j < b1 && JumpAt(k.p, j)
      ensures !JumpsInto(k.p, s1, b1, j)
    {
      NoJumpInto(k, at, s1, b1, j);
    }
  }

  lemma OldTarget(k: Shift, at: nat, s1: nat, b1: nat)
    requires Rewriting(k, at) && s1 < |k.p| && b1 < |k.p| && s1 !in k.s && JumpAt(k.p, b1)
    requires TargetIn(k.q, k.p[b1].target) == Some(k.At(s1))
    ensures TargetIn(k.p, k.p[b1].target) == Some(s1)
  {
    TargetsMove(k, at, k.p[b1].target);
    var t := TargetIn(k.p, k.p[b1].target).value;
    StaysPut(k, at, t);
    Backwards(k, t, s1);
  }

  lemma NoJumpInto(k: Shift, at: nat, s1: nat, b1: nat, j: nat)
    requires Rewriting(k, at) && s1 < j < b1 < |k.p| && s1 !in k.s && b1 !in k.s && JumpAt(k.p, j)
    requires forall i: nat :: k.At(s1) < i < k.At(b1) && JumpAt(k.q, i) ==> !JumpsInto(k.q, k.At(s1), k.At(b1), i)
    ensures !JumpsInto(k.p, s1, b1, j)
  {
    StaysPut(k, at, j);
    Backwards(k, s1, j);
    Backwards(k, j, b1);
    assert SamePlace(k, j) && JumpAt(k.q, k.At(j));
    assert !JumpsInto(k.q, k.At(s1), k.At(b1), k.At(j));
    TargetsMove(k, at, k.p[j].target);
    if TargetIn(k.p, k.p[j].target).Some? {
      var t := TargetIn(k.p, k.p[j].target).value;
      StaysPut(k, at, t);
      Backwards(k, s1, t);
      Backwards(k, t, b1);
    }
  }

  /** What is in the body of a loop now, apart from the two new commands, was so before. */
  lemma OldBody(k: Shift, at: nat, s1: nat, b1: nat, i: nat)
    requires Rewriting(k, at) && IsLoop(k.q, k.At(s1), k.At(b1)) && s1 !in k.s && b1 !in k.s
    requires i < |k.p| && k.At(s1) < k.At(i) < k.At(b1)
    ensures i !in k.s && s1 < i < b1
  {
    if i in k.s {
      MovedBetween(k.p, k.start, k.back, k.s, i);
      assert SamePlace(k, k.start) && k.q[k.At(k.start)].Label?;
      Backwards(k, b1, k.start);
      LeftOfMoved(k, b1, i);
      assert false;
    }
    Backwards(k, s1, i);
    Backwards(k, i, b1);
  }

  /** What stays in front of the loop's label is in front of everything moved. */
  lemma LeftOfMoved(k: Shift, b1: nat, i: nat)
    requires Shifted(k) && i in k.s && b1 !in k.s && k.At(b1) < k.At(k.start)
    ensures k.At(b1) < k.At(i)
  {
    MovedBetween(k.p, k.start, k.back, k.s, i);
    Backwards(k, b1, k.start);
  }

  // ---- orderly code stays orderly ----

  /** A definition in the body of a loop of the new function, of an old value. */
  lemma OldBodyDef(k: Shift, at: nat, s1: nat, b1: nat, v: Value, j: nat) returns (i: nat)
    requires Rewriting(k, at) && IsLoop(k.q, k.At(s1), k.At(b1)) && s1 !in k.s && b1 !in k.s
    requires v != k.addr && v != k.tmp && DefinedAt(k.q, v, j) && k.At(s1) < j < k.At(b1)
    ensures i < |k.p| && k.At(i) == j && k.q[j] == k.p[i] && DefinedAt(k.p, v, i) && i !in k.s && s1 < i < b1
  {
    i := OldDef(k, at, v, j);
    OldBody(k, at, s1, b1, i);
  }

  lemma OnceStays(k: Shift, at: nat, s1: nat, b1: nat, v: Value, d: nat)
    requires Rewriting(k, at) && IsLoop(k.q, k.At(s1), k.At(b1)) && s1 !in k.s && b1 !in k.s
    requires v != k.addr && v != k.tmp && OnceIn(k.p, s1, b1, v, d)
    ensures OnceIn(k.q, k.At(s1), k.At(b1), v, k.At(d))
  {
    forall j: nat | k.At(s1) < j < k.At(b1) && DefinedAt(k.q, v, j)
      ensures j == k.At(d)
    {
      var i := OldBodyDef(k, at, s1, b1, v, j);
    }
  }

  /** A moved command still comes after whatever stayed and feeds it. */
  lemma MovedStillAfter(k: Shift, at: nat, v: Value, n: nat, d: nat, i: nat)
    requires Rewriting(k, at) && d < |k.p| && d !in k.s && DefinedAt(k.p, v, d) && !ShapeOf(k.p[d]).Untraceable? && Feeds(k.p, v, n)
    requires i in k.s && UsedAt(k.p, v, i) && d < i
    ensures k.At(d) < k.At(i)
  {
    assert MovedUse(k, i, d, v, n);
    assert d != k.start;
    MovedBetween(k.p, k.start, k.back, k.s, i);
  }

  lemma UsesStayAfter(k: Shift, at: nat, v: Value, n: nat, d: nat)
    requires Rewriting(k, at) && d < |k.p| && d !in k.s && DefinedAt(k.p, v, d) && !ShapeOf(k.p[d]).Untraceable? && Feeds(k.p, v, n)
    requires v != k.addr && v != k.tmp && UsedAfter(k.p, v, d)
    ensures UsedAfter(k.q, v, k.At(d))
  {
    forall j: nat | UsedAt(k.q, v, j)
      ensures k.At(d) < j
    {
      var i := OldUse(k, at, v, j);
      if i in k.s {
        MovedStillAfter(k, at, v, n, d, i);
      } else {
        Backwards(k, d, i);
      }
    }
  }

  lemma FedStillInOrder(k: Shift, at: nat, s1: nat, b1: nat, d: nat, v: Value, n: nat)
    requires Rewriting(k, at) && IsLoop(k.p, s1, b1) && IsLoop(k.q, k.At(s1), k.At(b1)) && s1 !in k.s && b1 !in k.s
    requires k.At(s1) < d < k.At(b1) && DefinedAt(k.q, v, d) && !ShapeOf(k.q[d]).Untraceable? && Feeds(k.q, v, n)
    ensures OnceIn(k.q, k.At(s1), k.At(b1), v, d) && UsedAfter(k.q, v, d) && NothingPinned(k.q, d)
  {
    FedBefore(k, at, v, n);
    var i := OldBodyDef(k, at, s1, b1, v, d);
    assert OrderlyLoop(k.p, s1, b1);
    assert FedInOrder(k.p, s1, b1, i, v, n);
    OnceStays(k, at, s1, b1, v, i);
    UsesStayAfter(k, at, v, n, i);
  }

  /** A step of an induction variable in the new function: the pointer's own, or an old one. */
  lemma StepStillInOrder(k: Shift, at: nat, s1: nat, b1: nat, u: nat, a: nat, iv: Value, tv: Value)
    requires Rewriting(k, at) && IsLoop(k.p, s1, b1) && IsLoop(k.q, k.At(s1), k.At(b1)) && s1 !in k.s && b1 !in k.s
    requires k.At(s1) < u < k.At(b1) && k.At(s1) < a < k.At(b1) && k.q[u] == Set(Temp(iv), Temp(tv))
    requires DefinedAt(k.q, tv, a) && AddedLiteral(k.q[a], iv).Some?
    ensures a < u && OnceIn(k.q, k.At(s1), k.At(b1), tv, a)
  {
    assert UsedAt(k.q, tv, u);
    NewUses(k, tv);
    if tv == k.tmp {
      PointerStep(k, at, u, a);
    } else {
      var i := From(k, u);
      assert UsedAt(k.p, tv, i) && k.p[i] != k.p[at];
      OldStep(k, at, s1, b1, i, a, iv, tv);
    }
  }

  lemma PointerStep(k: Shift, at: nat, u: nat, a: nat)
    requires Rewriting(k, at) && UsedAt(k.q, k.tmp, u) && DefinedAt(k.q, k.tmp, a)
    ensures u == k.back + 1 && a == k.back && forall j: nat :: DefinedAt(k.q, k.tmp, j) ==> j == k.back
  {
    NewUses(k, k.tmp);
    forall j: nat | UsedAt(k.q, k.tmp, j)
      ensures j == k.back + 1
    {
      if j != k.back && j != k.back + 1 {
        var i := From(k, j);
        assert UsedAt(k.p, k.tmp, i);
      }
    }
    forall j: nat | DefinedAt(k.q, k.tmp, j)
      ensures j == k.back
    {
      if j != k.back && j != k.back + 1 {
        var i := From(k, j);
        assert DefinedAt(k.p, k.tmp, i);
      }
    }
  }

  lemma OldStep(k: Shift, at: nat, s1: nat, b1: nat, i: nat, a: nat, iv: Value, tv: Value)
    requires Rewriting(k, at) && IsLoop(k.p, s1, b1) && IsLoop(k.q, k.At(s1), k.At(b1)) && s1 !in k.s && b1 !in k.s
    requires i < |k.p| && k.At(s1) < k.At(i) < k.At(b1) && k.p[i] == Set(Temp(iv), Temp(tv)) && tv != k.addr && tv != k.tmp
    requires k.At(s1) < a < k.At(b1) && DefinedAt(k.q, tv, a) && AddedLiteral(k.q[a], iv).Some?
    ensures a < k.At(i) && OnceIn(k.q, k.At(s1), k.At(b1), tv, a)
  {
    OldBody(k, at, s1, b1, i);
    var a1 := OldBodyDef(k, at, s1, b1, tv, a);
    assert OrderlyLoop(k.p, s1, b1);
    assert StepInOrder(k.p, s1, b1, i, a1, iv, tv);
    Backwards(k, a1, i);
    OnceStays(k, at, s1, b1, tv, a1);
  }

  lemma OrderlyStays(k: Shift, at: nat)
    requires Rewriting(k, at)
    ensures Orderly(k.q)
  {
    forall start: nat, back: nat | IsLoop(k.q, start, back)
      ensures OrderlyLoop(k.q, start, back)
    {
      var s1, b1 := OldLoop(k, at, start, back);
      forall d: nat, v, n: nat
        ensures FedInOrder(k.q, start, back, d, v, n)
      {
        if start < d < back && DefinedAt(k.q, v, d) && !ShapeOf(k.q[d]).Untraceable? && Feeds(k.q, v, n) {
          FedStillInOrder(k, at, s1, b1, d, v, n);
        }
      }
      forall u: nat, a: nat, iv, tv
        ensures StepInOrder(k.q, start, back, u, a, iv, tv)
      {
        if start < u < back && start < a < back && k.q[u] == Set(Temp(iv), Temp(tv)) && DefinedAt(k.q, tv, a) && AddedLiteral(k.q[a], iv).Some? {
          StepStillInOrder(k, at, s1, b1, u, a, iv, tv);
        }
      }
    }
  }

  lemma UnusedStays(k: Shift, at: nat, v: Value)
    requires Rewriting(k, at) && Unused(k.p, v) && v != k.tmp
    ensures Unused(k.q, v)
  {
    assert UsedAt(k.p, k.addr, at);
    NewUses(k, v);
    forall j: nat
      ensures !UsedAt(k.q, v, j) && !DefinedAt(k.q, v, j)
    {
      if j < |k.q| && j != k.back && j != k.back + 1 {
        var i := From(k, j);
        assert !UsedAt(k.p, v, i) && !DefinedAt(k.p, v, i);
      }
    }
  }

  /** One rewrite of orderly code keeps the trace and leaves orderly code. */
  lemma RewriteKeepsOrder(p: seq<Cmd>, r: Reduction, tmp: Value)
    requires Accepted(p, r) && Orderly(p) && Unused(p, tmp)
    ensures Regular(p, r, tmp) && Orderly(ApplyOne(p, r, tmp))
    ensures forall v :: Unused(p, v) && v != tmp ==> Unused(ApplyOne(p, r, tmp), v)
  {
    OrderlyIsRegular(p, r, tmp);
    var k := AcceptedRewrites(p, r, tmp);
    OrderlyStays(k, r.at);
    forall v | Unused(p, v) && v != tmp
      ensures Unused(k.q, v)
    {
      UnusedStays(k, r.at, v);
    }
  }

  // ---- the whole pass ----

  /** Values the function does not mention, each different. */
  ghost predicate Spare(p: seq<Cmd>, spare: seq<Value>, from: nat) {
    && (forall i :: from <= i < |spare| ==> Unused(p, spare[i]))
    && (forall i, j :: from <= i < j < |spare| ==> spare[i] != spare[j])
  }

  lemma SpareNext(p: seq<Cmd>, q: seq<Cmd>, spare: seq<Value>, i: nat)
    requires Spare(p, spare, i) && i < |spare| && forall v :: Unused(p, v) && v != spare[i] ==> Unused(q, v)
    ensures Spare(q, spare, i + 1)
  {
  }

  lemma RoundKeepsOrder(p: seq<Cmd>, o: Round, spare: seq<Value>, i: nat)
    requires Accepted(p, o.r) && Orderly(p) && Spare(p, spare, i) && i < |spare| && o.tmp == spare[i]
    ensures Regular(p, o.r, o.tmp)
    ensures Orderly(ApplyOne(p, o.r, o.tmp)) && Spare(ApplyOne(p, o.r, o.tmp), spare, i + 1)
  {
    RewriteKeepsOrder(p, o.r, o.tmp);
    SpareNext(p, ApplyOne(p, o.r, o.tmp), spare, i);
  }

  lemma StageKeepsOrder(trail: seq<seq<Cmd>>, rounds: seq<Round>, spare: seq<Value>, i: nat)
    requires Stage(trail, rounds, i) && FromSpare(rounds, spare) && Orderly(trail[i]) && Spare(trail[i], spare, i)
    ensures Orderly(trail[i + 1]) && Spare(trail[i + 1], spare, i + 1)
  {
    RoundKeepsOrder(trail[i], rounds[i], spare, i);
  }

  lemma {:induction false} StagesOrderly(p: seq<Cmd>, q: seq<Cmd>, trail: seq<seq<Cmd>>, rounds: seq<Round>, spare: seq<Value>, i: nat)
    requires Applied(p, q, trail, rounds) && FromSpare(rounds, spare) && Orderly(p) && Spare(p, spare, 0) && i < |trail|
    ensures Orderly(trail[i]) && Spare(trail[i], spare, i)
  {
    if i > 0 {
      StagesOrderly(p, q, trail, rounds, spare, i - 1);
      StageKeepsOrder(trail, rounds, spare, i - 1);
    }
  }

  lemma StageRegular(trail: seq<seq<Cmd>>, rounds: seq<Round>, spare: seq<Value>, i: nat)
    requires Stage(trail, rounds, i) && FromSpare(rounds, spare) && Orderly(trail[i]) && Spare(trail[i], spare, i)
    ensures RegularAt(trail, rounds, i)
  {
    RoundKeepsOrder(trail[i], rounds[i], spare, i);
  }

  /** The whole pass keeps the memory trace and the result of any orderly function, and
      the rewritten function goes on as long as the original one does: it cannot fall
      behind by more than a fixed factor. */
  lemma OrderlyPassKeepsTrace(p: seq<Cmd>, q: seq<Cmd>, trail: seq<seq<Cmd>>, rounds: seq<Round>, spare: seq<Value>,
                              I: Interp, e: Env, mem: Mem, n: nat)
    requires Applied(p, q, trail, rounds) && FromSpare(rounds, spare) && Orderly(p) && Spare(p, spare, 0)
    ensures exists m: nat :: SameRun(p, q, I, e, mem, n, m) && n + 1 <= Lag(trail, |rounds|) * (m + 1)
    ensures Orderly(q)
  {
    forall i: nat | i < |rounds|
      ensures RegularAt(trail, rounds, i)
    {
      assert Stage(trail, rounds, i);
      StagesOrderly(p, q, trail, rounds, spare, i);
      StageRegular(trail, rounds, spare, i);
    }
    StagesOrderly(p, q, trail, rounds, spare, |rounds|);
    PassKeepsTrace(p, q, trail, rounds, I, e, mem, n);
  }
}
