/** Backward live-variable analysis: the round-robin fixpoint, proved exact.

    On exit a value is in `liveIn[i]` if and only if some control path from
    command `i` reaches a use of the value with no definition on the way, and
    the result is the least solution of the backward equations. */
module Liveness {
  import opened IL

  type Live = seq<set<Value>>

  ghost predicate Shape(p: seq<Cmd>, uses: seq<seq<Value>>, defs: seq<seq<Value>>) {
    |uses| == |p| && |defs| == |p|
  }

  function Elems(s: seq<Value>): set<Value> { set v | v in s }

  // ---- the equations ----

  /** What flows back into the exit of command `i` from its successors. */
  ghost predicate FlowsOut(p: seq<Cmd>, liveIn: Live, i: nat, v: Value)
    requires i < |p| && |liveIn| == |p|
  {
    exists s :: s in Succ(p, i) && v in liveIn[s]
  }

  ghost predicate SolvesAt(p: seq<Cmd>, uses: seq<seq<Value>>, defs: seq<seq<Value>>,
                           liveIn: Live, liveOut: Live, i: nat)
    requires Shape(p, uses, defs) && |liveIn| == |p| && |liveOut| == |p| && i < |p|
  {
    && (forall v :: v in liveOut[i] <==> FlowsOut(p, liveIn, i, v))
    && liveIn[i] == (liveOut[i] - Elems(defs[i])) + Elems(uses[i])
  }

  ghost predicate Solves(p: seq<Cmd>, uses: seq<seq<Value>>, defs: seq<seq<Value>>,
                         liveIn: Live, liveOut: Live)
    requires Shape(p, uses, defs)
  {
    && |liveIn| == |p| && |liveOut| == |p|
    && forall i :: 0 <= i < |p| ==> SolvesAt(p, uses, defs, liveIn, liveOut, i)
  }

  // ---- the meaning: a path to a use ----

  /** `path` is a control path whose last command uses `v` and on which no
      earlier command defines `v`. */
  ghost predicate UsePath(p: seq<Cmd>, uses: seq<seq<Value>>, defs: seq<seq<Value>>,
                          path: seq<nat>, v: Value)
    requires Shape(p, uses, defs)
  {
    && path != []
    && (forall k :: 0 <= k < |path| ==> path[k] < |p|)
    && (forall k :: 0 <= k < |path| - 1 ==> path[k + 1] in Succ(p, path[k]) && v !in defs[path[k]])
    && v in uses[path[|path| - 1]]
  }

  ghost predicate LiveAt(p: seq<Cmd>, uses: seq<seq<Value>>, defs: seq<seq<Value>>, i: nat, v: Value)
    requires Shape(p, uses, defs)
  {
    exists path :: UsePath(p, uses, defs, path, v) && path[0] == i
  }

  lemma UseIsLive(p: seq<Cmd>, uses: seq<seq<Value>>, defs: seq<seq<Value>>, i: nat, v: Value)
    requires Shape(p, uses, defs) && i < |p| && v in uses[i]
    ensures LiveAt(p, uses, defs, i, v)
  {
    assert UsePath(p, uses, defs, [i], v);
  }

  lemma LiveThrough(p: seq<Cmd>, uses: seq<seq<Value>>, defs: seq<seq<Value>>, i: nat, s: nat, v: Value)
    requires Shape(p, uses, defs) && i < |p| && s in Succ(p, i) && v !in defs[i]
    requires LiveAt(p, uses, defs, s, v)
    ensures LiveAt(p, uses, defs, i, v)
  {
    var path :| UsePath(p, uses, defs, path, v) && path[0] == s;
    var longer := [i] + path;
    forall k | 0 <= k < |longer| - 1
      ensures longer[k + 1] in Succ(p, longer[k]) && v !in defs[longer[k]]
    {
      if k > 0 {
        assert longer[k] == path[k - 1] && longer[k + 1] == path[k];
      }
    }
    assert longer[|longer| - 1] == path[|path| - 1];
    assert UsePath(p, uses, defs, longer, v);
  }

  /** A solution of the equations holds every value live by a path. */
  lemma {:induction false} SolutionHoldsPaths(p: seq<Cmd>, uses: seq<seq<Value>>, defs: seq<seq<Value>>,
                                              liveIn: Live, liveOut: Live, path: seq<nat>, v: Value)
    requires Shape(p, uses, defs) && Solves(p, uses, defs, liveIn, liveOut)
    requires UsePath(p, uses, defs, path, v)
    ensures v in liveIn[path[0]]
    decreases |path|
  {
    assert SolvesAt(p, uses, defs, liveIn, liveOut, path[0]);
    if |path| > 1 {
      var rest := path[1..];
      assert forall k :: 0 <= k < |rest| ==> rest[k] == path[k + 1];
      assert UsePath(p, uses, defs, rest, v);
      SolutionHoldsPaths(p, uses, defs, liveIn, liveOut, rest, v);
      assert path[0 + 1] in Succ(p, path[0]);
      assert FlowsOut(p, liveIn, path[0], v);
    }
  }

  /** Exactness of one pair of tables. */
  ghost predicate Exact(p: seq<Cmd>, uses: seq<seq<Value>>, defs: seq<seq<Value>>, liveIn: Live)
    requires Shape(p, uses, defs)
  {
    && |liveIn| == |p|
    && forall i, v :: 0 <= i < |p| ==> (v in liveIn[i] <==> LiveAt(p, uses, defs, i, v))
  }

  /** An exact solution is the least one. */
  lemma ExactIsLeast(p: seq<Cmd>, uses: seq<seq<Value>>, defs: seq<seq<Value>>,
                     liveIn: Live, liveOut: Live, otherIn: Live, otherOut: Live)
    requires Shape(p, uses, defs)
    requires Exact(p, uses, defs, liveIn) && Solves(p, uses, defs, liveIn, liveOut)
    requires Solves(p, uses, defs, otherIn, otherOut)
    ensures forall i :: 0 <= i < |p| ==> liveIn[i] <= otherIn[i] && liveOut[i] <= otherOut[i]
  {
    forall i, v | 0 <= i < |p| && v in liveIn[i]
      ensures v in otherIn[i]
    {
      var path :| UsePath(p, uses, defs, path, v) && path[0] == i;
      SolutionHoldsPaths(p, uses, defs, otherIn, otherOut, path, v);
    }
    forall i, v | 0 <= i < |p| && v in liveOut[i]
      ensures v in otherOut[i]
    {
      assert SolvesAt(p, uses, defs, liveIn, liveOut, i) && SolvesAt(p, uses, defs, otherIn, otherOut, i);
      var s :| s in Succ(p, i) && v in liveIn[s];
      assert FlowsOut(p, otherIn, i, v);
    }
  }

  // ---- the algorithm ----

  /** The label table and successor lists the pass starts from. */
  method Successors(p: seq<Cmd>) returns (succ: seq<seq<nat>>)
    ensures |succ| == |p| && forall i :: 0 <= i < |p| ==> succ[i] == Succ(p, i)
  {
    var labelIdx: map<nat, nat> := map[];
    for i := 0 to |p|
      invariant forall l :: l in labelIdx <==> TargetIn(p[..i], l).Some?
      invariant forall l :: l in labelIdx ==> TargetIn(p[..i], l) == Some(labelIdx[l])
    {
      assert p[..i + 1][..i] == p[..i];
      if p[i].Label? {
        labelIdx := labelIdx[p[i].name := i];
      }
    }
    assert p[..|p|] == p;
    succ := [];
    for i := 0 to |p|
      invariant |succ| == i
      invariant forall j :: 0 <= j < i ==> succ[j] == Succ(p, j)
    {
      var s: seq<nat> := [];
      if p[i].Return? {
      } else if p[i].Jump? {
        if p[i].target in labelIdx { s := [labelIdx[p[i].target]]; }
      } else if p[i].JumpZero? || p[i].JumpNotZero? {
        if i + 1 < |p| { s := s + [i + 1]; }
        if p[i].target in labelIdx { s := s + [labelIdx[p[i].target]]; }
      } else if i + 1 < |p| {
        s := [i + 1];
      }
      succ := succ + [s];
    }
  }

  /** All facts the tables hold, as one set: what the fixpoint only adds to. */
  ghost function Facts(liveIn: Live, liveOut: Live): set<(nat, bool, Value)>
    requires |liveIn| == |liveOut|
  {
    (set i: nat, v | 0 <= i < |liveIn| && v in liveIn[i] :: (i, true, v)) +
    (set i: nat, v | 0 <= i < |liveOut| && v in liveOut[i] :: (i, false, v))
  }

  ghost function Universe(n: nat, values: set<Value>): set<(nat, bool, Value)> {
    (set i: nat, v | 0 <= i < n && v in values :: (i, true, v)) +
    (set i: nat, v | 0 <= i < n && v in values :: (i, false, v))
  }

  ghost predicate Within(l: Live, values: set<Value>) {
    forall i :: 0 <= i < |l| ==> l[i] <= values
  }

  lemma FactsBounded(liveIn: Live, liveOut: Live, n: nat, values: set<Value>)
    requires |liveIn| == n && |liveOut| == n && Within(liveIn, values) && Within(liveOut, values)
    ensures Facts(liveIn, liveOut) <= Universe(n, values)
  {
  }

  ghost predicate Grows(a: Live, b: Live) {
    |a| == |b| && forall i :: 0 <= i < |a| ==> a[i] <= b[i]
  }

  lemma FactsGrow(in0: Live, out0: Live, in1: Live, out1: Live)
    requires Grows(in0, in1) && Grows(out0, out1) && |in0| == |out0|
    ensures Facts(in0, out0) <= Facts(in1, out1)
    ensures Facts(in0, out0) == Facts(in1, out1) ==> in0 == in1 && out0 == out1
  {
    if Facts(in0, out0) == Facts(in1, out1) {
      forall i: nat, v | i < |in0| && v in in1[i]
        ensures v in in0[i]
      {
        assert (i, true, v) in Facts(in0, out0);
      }
      forall i: nat, v | i < |out0| && v in out1[i]
        ensures v in out0[i]
      {
        assert (i, false, v) in Facts(in0, out0);
      }
      assert forall i :: 0 <= i < |in0| ==> in0[i] == in1[i];
      assert forall i :: 0 <= i < |out0| ==> out0[i] == out1[i];
    }
  }

  /** Union of the entry sets of the listed successors. */
  function UnionOf(succ: seq<nat>, liveIn: Live): (r: set<Value>)
    requires forall s :: s in succ ==> s < |liveIn|
    ensures forall v :: v in r <==> exists s :: s in succ && v in liveIn[s]
  {
    if succ == [] then {}
    else
      assert succ == [succ[0]] + succ[1..];
      assert forall s :: s in succ[1..] ==> s in succ;
      assert succ[0] in succ;
      liveIn[succ[0]] + UnionOf(succ[1..], liveIn)
  }

  /** Every table entry so far is witnessed: values come from `values`, entries
      from paths, and an exit entry from a successor's entry. */
  ghost predicate Sound(p: seq<Cmd>, uses: seq<seq<Value>>, defs: seq<seq<Value>>,
                        liveIn: Live, liveOut: Live)
    requires Shape(p, uses, defs)
  {
    && |liveIn| == |p| && |liveOut| == |p|
    && (forall i, v :: 0 <= i < |p| && v in liveIn[i] ==> LiveAt(p, uses, defs, i, v))
    && (forall i, v :: 0 <= i < |p| && v in liveOut[i] ==> FlowsOut(p, liveIn, i, v))
    // entries never run ahead of what recomputing them now would give
    && (forall i :: 0 <= i < |p| ==> liveIn[i] <= (liveOut[i] - Elems(defs[i])) + Elems(uses[i]))
  }

  lemma SoundStep(p: seq<Cmd>, uses: seq<seq<Value>>, defs: seq<seq<Value>>,
                  liveIn: Live, liveOut: Live, i: nat, lo: set<Value>, li: set<Value>)
    requires Shape(p, uses, defs) && Sound(p, uses, defs, liveIn, liveOut) && i < |p|
    requires forall v :: v in lo <==> FlowsOut(p, liveIn, i, v)
    requires li == (lo - Elems(defs[i])) + Elems(uses[i])
    ensures liveOut[i] <= lo && liveIn[i] <= li
    ensures Sound(p, uses, defs, liveIn[i := li], liveOut[i := lo])
  {
    var in1, out1 := liveIn[i := li], liveOut[i := lo];
    assert liveIn[i] <= li;
    assert forall j :: 0 <= j < |p| ==> liveIn[j] <= in1[j];
    forall j, v | 0 <= j < |p| && v in in1[j]
      ensures LiveAt(p, uses, defs, j, v)
    {
      if j == i {
        if v in uses[i] {
          UseIsLive(p, uses, defs, i, v);
        } else {
          var s :| s in Succ(p, i) && v in liveIn[s];
          LiveThrough(p, uses, defs, i, s, v);
        }
      }
    }
    forall j, v | 0 <= j < |p| && v in out1[j]
      ensures FlowsOut(p, in1, j, v)
    {
      assert FlowsOut(p, liveIn, j, v);
      var s :| s in Succ(p, j) && v in liveIn[s];
      assert v in in1[s];
    }
  }

  /** One backward sweep recomputing every entry in place. */
  method Sweep(p: seq<Cmd>, succ: seq<seq<nat>>, uses: seq<seq<Value>>, defs: seq<seq<Value>>,
               in0: Live, out0: Live, ghost values: set<Value>)
    returns (liveIn: Live, liveOut: Live, changed: bool)
    requires |succ| == |p| && forall i :: 0 <= i < |p| ==> succ[i] == Succ(p, i)
    requires Shape(p, uses, defs) && Sound(p, uses, defs, in0, out0)
    requires forall i, v :: 0 <= i < |p| && v in uses[i] ==> v in values
    requires Within(in0, values) && Within(out0, values)
    ensures Sound(p, uses, defs, liveIn, liveOut)
    ensures Within(liveIn, values) && Within(liveOut, values)
    ensures Grows(in0, liveIn) && Grows(out0, liveOut)
    ensures changed <==> !(in0 == liveIn && out0 == liveOut)
    ensures !changed ==> Solves(p, uses, defs, liveIn, liveOut)
  {
    liveIn, liveOut, changed := in0, out0, false;
    for i := |p| downto 0
      invariant Sound(p, uses, defs, liveIn, liveOut)
      invariant Within(liveIn, values) && Within(liveOut, values)
      invariant Grows(in0, liveIn) && Grows(out0, liveOut)
      invariant changed <==> !(in0 == liveIn && out0 == liveOut)
      invariant !changed ==> forall j :: i <= j < |p| ==> SolvesAt(p, uses, defs, liveIn, liveOut, j)
    {
      var lo := UnionOf(succ[i], liveIn);
      assert forall v :: v in lo <==> FlowsOut(p, liveIn, i, v);
      var li := lo - Elems(defs[i]) + Elems(uses[i]);
      SoundStep(p, uses, defs, liveIn, liveOut, i, lo, li);
      assert lo <= values by { FlowsWithin(p, liveIn, i, lo, values); }
      if li != liveIn[i] || lo != liveOut[i] {
        changed := true;
        StrictGrowth(in0, liveIn, out0, liveOut, i, li, lo);
      } else {
        assert liveIn[i := li] == liveIn && liveOut[i := lo] == liveOut;
        assert SolvesAt(p, uses, defs, liveIn, liveOut, i);
      }
      liveIn, liveOut := liveIn[i := li], liveOut[i := lo];
    }
  }

  lemma FlowsWithin(p: seq<Cmd>, liveIn: Live, i: nat, lo: set<Value>, values: set<Value>)
    requires i < |p| && |liveIn| == |p| && Within(liveIn, values)
    requires forall v :: v in lo <==> FlowsOut(p, liveIn, i, v)
    ensures lo <= values
  {
    forall v | v in lo ensures v in values {
      var s :| s in Succ(p, i) && v in liveIn[s];
    }
  }

  lemma StrictGrowth(in0: Live, liveIn: Live, out0: Live, liveOut: Live, i: nat, li: set<Value>, lo: set<Value>)
    requires Grows(in0, liveIn) && Grows(out0, liveOut) && i < |in0| && i < |out0|
    requires liveIn[i] <= li && liveOut[i] <= lo
    requires li != liveIn[i] || lo != liveOut[i]
    ensures Grows(in0, liveIn[i := li]) && Grows(out0, liveOut[i := lo])
    ensures in0 != liveIn[i := li] || out0 != liveOut[i := lo]
  {
    assert in0[i] <= liveIn[i] && out0[i] <= liveOut[i];
  }

  method ComputeLiveness(p: seq<Cmd>, uses: seq<seq<Value>>, defs: seq<seq<Value>>)
    returns (liveIn: Live, liveOut: Live)
    requires Shape(p, uses, defs)
    ensures Solves(p, uses, defs, liveIn, liveOut)
    ensures Exact(p, uses, defs, liveIn)
  {
    var succ := Successors(p);
    liveIn, liveOut := seq(|p|, _ => {}), seq(|p|, _ => {});
    ghost var values := set i, v | 0 <= i < |p| && v in uses[i] :: v;
    var changed := true;
    while changed
      invariant Sound(p, uses, defs, liveIn, liveOut)
      invariant Within(liveIn, values) && Within(liveOut, values)
      invariant !changed ==> Solves(p, uses, defs, liveIn, liveOut)
      decreases Universe(|p|, values) - Facts(liveIn, liveOut), changed
    {
      ghost var in0, out0 := liveIn, liveOut;
      liveIn, liveOut, changed := Sweep(p, succ, uses, defs, liveIn, liveOut, values);
      FactsBounded(liveIn, liveOut, |p|, values);
      FactsGrow(in0, out0, liveIn, liveOut);
    }
    forall i, v | 0 <= i < |p| && LiveAt(p, uses, defs, i, v)
      ensures v in liveIn[i]
    {
      var path :| UsePath(p, uses, defs, path, v) && path[0] == i;
      SolutionHoldsPaths(p, uses, defs, liveIn, liveOut, path, v);
    }
  }
}
