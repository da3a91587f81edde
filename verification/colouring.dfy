/** The allocation loop and the assignment of spots. */
module Colouring {
  import opened Graphs
  import opened MergeForest
  import opened Conservative
  import opened ColouringState
  import opened NodeGraphs
  import opened Reductions
  import opened SpotAssignment
  import opened BestSpots
  import opened AllocatorRuns
  import opened IL

  /** The proof's part of the state: what the invariant speaks of, and the moves made. */
  datatype Ledger = Ledger(root: Roots, rank: map<Node, nat>, seen: map<Node, set<Node>>, low: set<Node>, moves: seq<Move>)

  /** One run of the allocator on a working copy `g` of the graph. */
  class Reduction {
    const g: NodeGraph
    const k: nat
    var removed: seq<Node>
    var merged: Table

    ghost const o: Graph
    ghost var h: Ledger

    ghost predicate Valid()
      reads this, g
    {
      Reached(o, k, h.moves, Now())
    }

    ghost function Now(): State
      reads this, g
    {
      At(g.View())
    }

    /** The state with `view` for the graph. */
    ghost function At(view: Graph): State
      reads this
    {
      State(view, removed, merged, h.root, h.rank, h.seen, h.low)
    }

    ghost predicate OnlyRealPushed()
      reads this
    {
      forall n :: n in removed ==> n.Var?
    }

    constructor (source: NodeGraph, k: nat)
      requires source.Valid()
      ensures Valid() && OnlyRealPushed() && fresh(g)
      ensures o == source.View() && this.k == k && removed == []
    {
      g := new NodeGraph.CopyOf(source);
      this.k := k;
      removed, merged := [], map[];
      o := source.View();
      ghost var start := Initial(source.View());
      h := Ledger(start.root, start.rank, start.seen, start.low, []);
      new;
      InvStarts(o, k);
      assert Now() == Initial(o);
    }

    /** Push the node just removed from the graph. */
    method RecordPush(n: Node, ghost s1: State, ghost m: Move)
      requires Reached(o, k, h.moves + [m], s1)
      requires s1.g == g.View() && s1.removed == removed + [n] && s1.merged == merged
      modifies this
      ensures Valid() && removed == old(removed) + [n] && h.moves == old(h.moves) + [m]
    {
      removed := removed + [n];
      h := Ledger(s1.root, s1.rank, s1.seen, s1.low, h.moves + [m]);
      assert Now() == s1;
    }

    method SimplifyAll() returns (did: bool)
      requires Valid() && OnlyRealPushed()
      modifies this, g
      ensures Valid() && OnlyRealPushed()
      ensures did ==> |g.nodes| < old(|g.nodes|)
      ensures !did ==> g.View() == old(g.View()) && forall v :: !Simplifiable(g.View(), k, v)
    {
      var noPref := WithoutPrefs(g.View());
      did := false;
      while true
        invariant Valid() && OnlyRealPushed()
        invariant NoDup(noPref) && forall v :: v in noPref ==> v in g.nodes && g.pref[v] == []
        invariant did ==> |g.nodes| < old(|g.nodes|)
        invariant !did ==> g.View() == old(g.View()) && forall v :: v in g.nodes && g.pref[v] == [] ==> v in noPref
        decreases |g.nodes|
      {
        ghost var g0 := g.View();
        var rem := SimplifyOnce(noPref, g, k);
        if rem.None? {
          break;
        }
        var v := rem.value;
        WithoutElements(g0.nodes, v);
        WithoutElements(noPref, v);
        ReachPush(o, k, h.moves, At(g0), Simplified(v));
        RecordPush(v, Push(At(g0), v, true), Simplified(v));
        noPref := Without(noPref, v);
        did := true;
      }
    }

    /** Record a merge just made in the graph. */
    method RecordMerge(a: Node, b: Node, ghost s1: State)
      requires Reached(o, k, h.moves + [Coalesced(a, b)], s1)
      requires s1.g == g.View() && s1.removed == removed && s1.merged == Adopt(merged, a, b)
      modifies this
      ensures Valid() && removed == old(removed) && h.moves == old(h.moves) + [Coalesced(a, b)]
    {
      merged := AppendKid(merged, a, b);
      h := Ledger(s1.root, s1.rank, s1.seen, s1.low, h.moves + [Coalesced(a, b)]);
      assert Now() == s1;
    }

    method CoalesceAll() returns (did: bool)
      requires Valid() && OnlyRealPushed()
      modifies this, g
      ensures Valid() && OnlyRealPushed()
      ensures did ==> |g.nodes| < old(|g.nodes|)
      ensures !did ==> g.View() == old(g.View())
      ensures forall v :: v in g.nodes ==> NothingJoinable(g.View(), k, v)
    {
      did := false;
      while true
        invariant Valid() && OnlyRealPushed()
        invariant did ==> |g.nodes| < old(|g.nodes|)
        invariant !did ==> g.View() == old(g.View())
        decreases |g.nodes|
      {
        var mergedAny := CoalescePass();
        if !mergedAny {
          break;
        }
        did := true;
      }
    }

    /** One pass over the nodes present at its start. */
    method CoalescePass() returns (mergedAny: bool)
      requires Valid() && OnlyRealPushed()
      modifies this, g
      ensures Valid() && OnlyRealPushed()
      ensures mergedAny ==> |g.nodes| < old(|g.nodes|)
      ensures !mergedAny ==> g.View() == old(g.View()) && forall v :: v in g.nodes ==> NothingJoinable(g.View(), k, v)
    {
      mergedAny := false;
      var snapshot := g.nodes;
      ghost var g0 := g.View();
      for i := 0 to |snapshot|
        invariant Valid() && OnlyRealPushed()
        invariant forall v :: v in snapshot ==> v.Var?
        invariant mergedAny ==> |g.nodes| < |snapshot|
        invariant !mergedAny ==> g.View() == g0 && PassedOver(g0, k, snapshot, i)
      {
        assert snapshot[i] in snapshot;
        var did := CoalesceOne(snapshot[i]);
        mergedAny := mergedAny || did;
        OneMorePassed(g0, k, snapshot, i);
      }
    }

    /** Coalesce `v1` if it has not been merged away earlier in the pass. */
    method CoalesceOne(v1: Node) returns (did: bool)
      requires Valid() && OnlyRealPushed() && v1.Var?
      modifies this, g
      ensures Valid() && OnlyRealPushed()
      ensures did ==> |g.nodes| < old(|g.nodes|)
      ensures !did ==> g.View() == old(g.View()) && NothingJoinable(g.View(), k, v1)
    {
      if !(v1 in g.conf && v1 in g.pref) {
        NotThereNotJoinable(g.View(), k, v1);
        return false;
      }
      ghost var g0 := g.View();
      var merge := CoalesceNode(g, v1, k);
      if merge.None? {
        return false;
      }
      WithoutElements(g0.nodes, merge.value.1);
      ReachJoin(o, k, h.moves, At(g0), merge.value.0, merge.value.1);
      RecordMerge(merge.value.0, merge.value.1, Join(At(g0), merge.value.0, merge.value.1));
      return true;
    }

    /** Record a preference just dropped from the graph. */
    ghost method RecordFreeze(a: Node, b: Node, s1: State)
      requires Reached(o, k, h.moves + [Frozen(a, b)], s1)
      requires s1 == Now()
      modifies this`h
      ensures Valid() && h.moves == old(h.moves) + [Frozen(a, b)]
    {
      h := h.(moves := h.moves + [Frozen(a, b)]);
      assert Now() == s1;
    }

    /** Freeze one preference, once nothing can be simplified or merged. */
    method FreezeStep() returns (did: bool)
      requires Valid() && OnlyRealPushed()
      requires forall v :: !Simplifiable(g.View(), k, v)
      requires forall v :: v in g.nodes ==> NothingJoinable(g.View(), k, v)
      modifies this, g
      ensures Valid() && OnlyRealPushed() && g.nodes == old(g.nodes)
      ensures did ==> PrefEdges(g.View()) < old(PrefEdges(g.View()))
      ensures !did ==> g.View() == old(g.View()) && forall x, y :: !Pref(g.View(), x, y)
    {
      ghost var a, b;
      ghost var s0 := Now();
      did, a, b := Freeze(g);
      if did {
        ReachFreeze(o, k, h.moves, s0, a, b);
        UnpreferShrinks(s0.g, a, b);
        RecordFreeze(a, b, s0.(g := PrefRemoved(s0.g, a, b)));
      }
    }

    /** Simplify and coalesce until neither does anything, then freeze, until there
        is nothing left to freeze: every remaining node has high degree. */
    method Settle()
      requires Valid() && OnlyRealPushed()
      modifies this, g
      ensures Valid() && OnlyRealPushed()
      ensures |g.nodes| <= old(|g.nodes|)
      ensures forall v :: v in g.nodes ==> v in g.conf && k <= |g.conf[v]|
    {
      while true
        invariant Valid() && OnlyRealPushed()
        invariant |g.nodes| <= old(|g.nodes|)
        decreases |g.nodes|, PrefEdges(g.View())
      {
        ghost var n0, e0 := |g.nodes|, PrefEdges(g.View());
        while true
          invariant Valid() && OnlyRealPushed()
          invariant |g.nodes| < n0 || (|g.nodes| == n0 && PrefEdges(g.View()) == e0)
          decreases |g.nodes|
        {
          var simplified := SimplifyAll();
          var joined := CoalesceAll();
          if !simplified && !joined {
            break;
          }
        }
        assert forall v :: !Simplifiable(g.View(), k, v);
        var frozen := FreezeStep();
        if !frozen {
          break;
        }
      }
      OnlyHighLeft(g.View(), k);
    }

    /** The node of highest conflict degree, the first among equals. */
    method SpillCandidate() returns (n: Node)
      requires g.Valid() && g.nodes != []
      ensures n in g.nodes && n in g.conf
      ensures forall v :: v in g.nodes ==> v in g.conf && |g.conf[v]| <= |g.conf[n]|
      ensures exists i :: 0 <= i < |g.nodes| && g.nodes[i] == n && forall j :: 0 <= j < i ==> g.nodes[j] in g.conf && |g.conf[g.nodes[j]]| < |g.conf[n]|
    {
      n := g.nodes[0];
      var deg: int := -1;
      for i := 0 to |g.nodes|
        invariant i > 0 ==> n in g.nodes && n in g.conf && deg == |g.conf[n]|
        invariant i == 0 ==> deg == -1
        invariant forall j :: 0 <= j < i ==> g.nodes[j] in g.conf && |g.conf[g.nodes[j]]| <= deg
        invariant i > 0 ==> exists m :: 0 <= m < i && g.nodes[m] == n && forall j :: 0 <= j < m ==> g.nodes[j] in g.conf && |g.conf[g.nodes[j]]| < deg
      {
        assert g.nodes[i] in g.nodes;
        if |g.conf[g.nodes[i]]| > deg {
          n, deg := g.nodes[i], |g.conf[g.nodes[i]]|;
        }
      }
    }

    /** Push the node of highest degree although it may not get a register. */
    method PushOptimistically()
      requires Valid() && OnlyRealPushed() && g.nodes != []
      requires forall v :: v in g.nodes ==> v in g.conf && k <= |g.conf[v]|
      modifies this, g
      ensures Valid() && OnlyRealPushed() && |g.nodes| < old(|g.nodes|)
    {
      var n := SpillCandidate();
      ghost var g0 := g.View();
      StuckMeansHard(o, k, Now(), OptimisticBy(h.moves), n);
      ReachPush(o, k, h.moves, At(g0), Optimistic(n));
      WithoutElements(g.nodes, n);
      g.Pop(n);
      RecordPush(n, Push(At(g0), n, false), Optimistic(n));
    }

    /** Push the dummy nodes that simplification cannot remove. */
    method PushDummies()
      requires Valid() && OnlyRealPushed() && g.nodes == []
      modifies this, g
      ensures Valid() && g.all == [] && DummiesOnTop(removed)
    {
      NoDummiesYet(removed);
      while g.all != []
        invariant Valid() && g.nodes == []
        invariant DummiesOnTop(removed)
        decreases |g.all|
      {
        assert g.all[0] in g.all;
        DummyPushed(removed, g.all[0]);
        PushFirstDummy();
      }
    }

    method PushFirstDummy()
      requires Valid() && g.nodes == [] && g.all != []
      modifies this, g
      ensures Valid() && g.nodes == [] && |g.all| < old(|g.all|)
      ensures old(g.all[0]).Spot? && removed == old(removed) + [old(g.all[0])]
    {
      var n := g.all[0];
      assert n in g.all && n.Spot?;
      ghost var g0 := g.View();
      g.Pop(n);
      ReachPush(o, k, h.moves, At(g0), Dummy(n));
      RecordPush(n, Push(At(g0), n, false), Dummy(n));
    }

    /** Reduce the graph to nothing, stacking every node. */
    method Reduce()
      requires Valid() && removed == []
      modifies this, g
      ensures Valid() && g.all == [] && DummiesOnTop(removed)
    {
      while true
        invariant Valid() && OnlyRealPushed()
        decreases |g.nodes|
      {
        Settle();
        if g.nodes == [] {
          break;
        }
        PushOptimistically();
      }
      PushDummies();
    }
  }

  /** Without preferences, what cannot be simplified has high degree. */
  lemma OnlyHighLeft(g: Graph, k: nat)
    requires WellFormed(g) && (forall v :: !Simplifiable(g, k, v)) && forall x, y :: !Pref(g, x, y)
    ensures forall v :: v in g.nodes ==> v in g.conf && k <= |g.conf[v]|
  {
    forall v | v in g.nodes
      ensures v in g.conf && k <= |g.conf[v]|
    {
      assert !Simplifiable(g, k, v);
      assert g.pref[v] != [] ==> Pref(g, v, g.pref[v][0]);
    }
  }

  /** No node among the first `i` can be merged. */
  ghost predicate PassedOver(g: Graph, k: nat, nodes: seq<Node>, i: nat) {
    forall j :: 0 <= j < i && j < |nodes| ==> NothingJoinable(g, k, nodes[j])
  }

  lemma OneMorePassed(g: Graph, k: nat, nodes: seq<Node>, i: nat)
    requires i < |nodes|
    ensures PassedOver(g, k, nodes, i) && NothingJoinable(g, k, nodes[i]) ==> PassedOver(g, k, nodes, i + 1)
  {
  }

  lemma NotThereNotJoinable(g: Graph, k: nat, v: Node)
    requires !(v in g.conf && v in g.pref)
    ensures NothingJoinable(g, k, v)
  {
  }

  method AppendKid(merged: Table, a: Node, b: Node) returns (r: Table)
    ensures r == Adopt(merged, a, b)
  {
    r := merged;
    if a !in r {
      r := r[a := []];
    }
    r := r[a := r[a] + [b]];
  }

  /** The nodes of `r` are among the first `n` of `nodes`, in the same order. */
  ghost predicate ListedAlike(r: seq<Node>, nodes: seq<Node>, n: nat) {
    && n <= |nodes| && (forall v :: v in r ==> v in nodes[..n])
    && forall a, b :: 0 <= a < b < |r| ==> ListedAhead(nodes, n, r[a], r[b])
  }

  ghost predicate ListedAhead(nodes: seq<Node>, n: nat, v: Node, w: Node) {
    exists i, j :: 0 <= i < j < n && j < |nodes| && nodes[i] == v && nodes[j] == w
  }

  lemma ListedNext(r: seq<Node>, nodes: seq<Node>, n: nat)
    requires n < |nodes| && ListedAlike(r, nodes, n)
    ensures ListedAlike(r, nodes, n + 1) && ListedAlike(r + [nodes[n]], nodes, n + 1)
  {
    assert nodes[..n + 1] == nodes[..n] + [nodes[n]];
    forall a, b | 0 <= a < b < |r|
      ensures ListedAhead(nodes, n + 1, r[a], r[b])
    {
      assert ListedAhead(nodes, n, r[a], r[b]);
    }
    forall a | 0 <= a < |r|
      ensures ListedAhead(nodes, n + 1, r[a], nodes[n])
    {
      assert r[a] in r;
      var i :| 0 <= i < n && nodes[..n][i] == r[a];
      assert nodes[i] == r[a];
    }
  }

  /** The real nodes without a preference edge. */
  method WithoutPrefs(g: Graph) returns (r: seq<Node>)
    requires WellFormed(g)
    ensures NoDup(r) && forall v :: v in r <==> v in g.nodes && g.pref[v] == []
    ensures ListedAlike(r, g.nodes, |g.nodes|)
  {
    r := [];
    for i := 0 to |g.nodes|
      invariant NoDup(r) && forall v :: v in r <==> v in g.nodes[..i] && g.pref[v] == []
      invariant ListedAlike(r, g.nodes, i)
    {
      assert g.nodes[..i + 1] == g.nodes[..i] + [g.nodes[i]];
      assert g.nodes[i] in g.nodes && g.nodes[i] !in g.nodes[..i] by {
        forall j: nat | j < i ensures g.nodes[j] != g.nodes[i] { assert Differ(g.nodes, j, i); }
      }
      ListedNext(r, g.nodes, i);
      if g.pref[g.nodes[i]] == [] {
        NoDupSnoc(r, g.nodes[i]);
        r := r + [g.nodes[i]];
      }
    }
    assert g.nodes[..|g.nodes|] == g.nodes;
  }

  // ---- assigning spots ----

  /** The spot for the group of `cur`: its own register for a dummy, the first
      register no conflict rules out otherwise, or else a fresh stack slot. */
  method ChooseSpot(cur: Node, conflicts: set<Node>, alloc: seq<nat>, spots: Spots, next: nat)
    returns (place: Place)
    requires SpotAssignment.Distinct(alloc)
    requires cur.Spot? ==> cur.reg in alloc
    ensures cur.Spot? ==> place == InReg(cur.reg)
    ensures place.InReg? ==> place.reg in alloc
    ensures Chosen(cur, conflicts, alloc, spots, next, place)
  {
    if cur.Spot? {
      place := InReg(cur.reg);
    } else {
      var regs := FreeRegisters(alloc, conflicts, spots);
      if regs != [] {
        LastIsPreferred(alloc, regs);
        place := InReg(regs[|regs| - 1]);
      } else {
        place := OnStack(next);
      }
    }
  }

  lemma PopKeeps(o: Graph, s: State, alloc: seq<nat>, j: nat, spots: Spots, spilled: set<Node>, next: nat,
                 conflicts: set<Node>, place: Place)
    requires Reduced(o, |alloc|, s) && Popping(o, |alloc|, s, alloc, j, spots, spilled, next) && j > 0
    requires SpotAssignment.Distinct(alloc)
    requires forall y :: y in conflicts <==> Against(o, s.root, s.removed[j - 1], y)
    requires var cur := s.removed[j - 1];
             && (cur.Spot? ==> place == InReg(cur.reg))
             && (place.InReg? ==> place.reg in alloc)
             && (cur.Var? && place.InReg? ==> forall y :: y in conflicts ==> !Blocks(spots, y, place.reg))
             && (place.OnStack? ==> place.slot == next && forall r :: r in alloc ==> exists y :: y in conflicts && Blocks(spots, y, r))
    ensures var cur := s.removed[j - 1];
            Popping(o, |alloc|, s, alloc, j - 1, Assigned(spots, Group(s.root, cur), place),
                    if place.OnStack? then spilled + {cur} else spilled, if place.OnStack? then next + 1 else next)
  {
    var cur := s.removed[j - 1];
    var group := Group(s.root, cur);
    var spots1 := Assigned(spots, group, place);
    assert Placed(s, j - 1, spots1) by { PlacedNext(s, j, spots, place); }
    assert Proper(o, spots1) by {
      forall y | y in spots && Against(o, s.root, cur, y)
        ensures spots[y] != place
      {
        NoneHasIt(o, s, alloc, j, spots, spilled, next, conflicts, place, y);
      }
      ProperNext(o, |alloc|, s, j, spots, cur, place);
    }
    if place.OnStack? && cur in s.low {
      LowFindsRegister(o, s, alloc, j, spots, spilled, next);
    }
    assert forall x :: x in group && x.Spot? ==> x == cur by { DummiesAlone(o, |alloc|, s, cur); }
    assert cur !in spots by { NotYetPlaced(o, s, j, spots); }
    PlacesNext(s, alloc, spots, spilled, next, cur, place);
  }

  lemma NotYetPlaced(o: Graph, s: State, j: nat, spots: Spots)
    requires NoDup(s.removed) && GroupsOk(o, s) && 0 < j <= |s.removed| && Placed(s, j, spots)
    ensures s.removed[j - 1] !in spots && s.removed[j - 1] in s.root && s.root[s.removed[j - 1]] == s.removed[j - 1]
  {
    var cur := s.removed[j - 1];
    assert cur in s.removed && s.root[cur] == cur;
    forall m: nat | j <= m < |s.removed|
      ensures s.removed[m] != cur
    {
      assert Differ(s.removed, j - 1, m);
    }
  }

  lemma DummiesAlone(o: Graph, k: nat, s: State, cur: Node)
    requires Inv(o, k, s)
    ensures forall x :: x in Group(s.root, cur) && x.Spot? ==> x == cur
  {
    forall x | x in Group(s.root, cur) && x.Spot?
      ensures x == cur
    {
      assert x in o.all;
    }
  }

  lemma NoneHasIt(o: Graph, s: State, alloc: seq<nat>, j: nat, spots: Spots, spilled: set<Node>, next: nat,
                  conflicts: set<Node>, place: Place, y: Node)
    requires Reduced(o, |alloc|, s) && Popping(o, |alloc|, s, alloc, j, spots, spilled, next) && j > 0
    requires forall z :: z in conflicts <==> Against(o, s.root, s.removed[j - 1], z)
    requires s.removed[j - 1].Spot? ==> place == InReg(s.removed[j - 1].reg)
    requires s.removed[j - 1].Var? && place.InReg? ==> forall z :: z in conflicts ==> !Blocks(spots, z, place.reg)
    requires place.OnStack? ==> place.slot == next
    requires y in spots && Against(o, s.root, s.removed[j - 1], y)
    ensures spots[y] != place
  {
    if s.removed[j - 1].Spot? {
      DummyIsFree(o, |alloc|, s, alloc, j, spots, spilled, next, y);
    } else if place.InReg? {
      assert !Blocks(spots, y, place.reg);
    }
  }

  lemma PlacesNext(s: State, alloc: seq<nat>, spots: Spots, spilled: set<Node>, next: nat, cur: Node, place: Place)
    requires PlacesOk(s, alloc, spots, spilled, next) && cur in s.removed && cur in s.root && s.root[cur] == cur && cur !in spots
    requires forall x :: x in Group(s.root, cur) && x.Spot? ==> x == cur
    requires cur.Spot? ==> place == InReg(cur.reg)
    requires place.InReg? ==> place.reg in alloc
    requires place.OnStack? ==> place.slot == next && cur !in s.low
    ensures PlacesOk(s, alloc, Assigned(spots, Group(s.root, cur), place),
                     if place.OnStack? then spilled + {cur} else spilled, if place.OnStack? then next + 1 else next)
  {
  }

  /** What the group of a popped node conflicts with, and the group. */
  method Gather(g: Graph, merged: Table, ghost s: State, cur: Node) returns (conflicts: set<Node>, group: set<Node>)
    requires WellFormed(g) && GroupsOk(g, s) && TreesAreGroups(s.merged, s.rank, s.root) && s.merged == merged && cur in s.removed
    ensures forall y :: y in conflicts <==> Against(g, s.root, cur, y)
    ensures group == Group(s.root, cur)
  {
    assert cur in s.root && s.root[cur] == cur;
    assert Tree(s.merged, s.rank, cur) == Group(s.root, cur);
    conflicts := GetConflicts(g, merged, s.rank, cur);
    group := GetMerged(merged, s.rank, cur);
    forall y { ConflictsAreAgainst(g, s, cur, y); }
  }

  lemma PopStep(o: Graph, s: State, alloc: seq<nat>, i: nat, spots: Spots, spilled: set<Node>, next: nat, conflicts: set<Node>, place: Place)
    requires Reduced(o, |alloc|, s) && SpotAssignment.Distinct(alloc) && i < |s.removed|
    requires Popping(o, |alloc|, s, alloc, i + 1, spots, spilled, next) && BestFrom(o, s.removed, s.root, alloc, spots, i + 1, next)
    requires forall y :: y in conflicts <==> Against(o, s.root, s.removed[i], y)
    requires Chosen(s.removed[i], conflicts, alloc, spots, next, place)
    requires (s.removed[i].Spot? ==> place == InReg(s.removed[i].reg)) && (place.InReg? ==> place.reg in alloc)
    ensures var cur := s.removed[i];
            var spots1 := Assigned(spots, Group(s.root, cur), place);
            var next1 := if place.OnStack? then next + 1 else next;
            && Popping(o, |alloc|, s, alloc, i, spots1, if place.OnStack? then spilled + {cur} else spilled, next1)
            && BestFrom(o, s.removed, s.root, alloc, spots1, i, next1)
  {
    PopKeeps(o, s, alloc, i + 1, spots, spilled, next, conflicts, place);
    PopIsBest(o, s, alloc, i, spots, spilled, next, conflicts, place);
  }

  /** Pop the node at stack position `i` and give its group a spot. */
  method PopOne(g: Graph, alloc: seq<nat>, cur: Node, merged: Table, spots: Spots, spilled: set<Node>, slots: nat, ghost s: State, ghost i: nat)
    returns (spots1: Spots, spilled1: set<Node>, slots1: nat)
    requires WellFormed(g) && Reduced(g, |alloc|, s) && s.merged == merged && i < |s.removed| && s.removed[i] == cur
    requires SpotAssignment.Distinct(alloc) && (cur.Spot? ==> cur.reg in alloc)
    requires Popping(g, |alloc|, s, alloc, i + 1, spots, spilled, slots) && BestFrom(g, s.removed, s.root, alloc, spots, i + 1, slots)
    ensures Popping(g, |alloc|, s, alloc, i, spots1, spilled1, slots1) && BestFrom(g, s.removed, s.root, alloc, spots1, i, slots1)
  {
    assert cur in s.removed;
    var conflicts, group := Gather(g, merged, s, cur);
    var place := ChooseSpot(cur, conflicts, alloc, spots, slots);
    PopStep(g, s, alloc, i, spots, spilled, slots, conflicts, place);
    spots1 := Assigned(spots, group, place);
    spilled1, slots1 := spilled, slots;
    if place.OnStack? {
      spilled1 := spilled + {cur};
      slots1 := slots + 1;
    }
  }

  /** Pop the whole stack. */
  method GenerateSpotmap(source: NodeGraph, alloc: seq<nat>, removed: seq<Node>, merged: Table, ghost s: State)
    returns (spots: Spots, spilled: set<Node>, slots: nat)
    requires source.Valid() && Reduced(source.View(), |alloc|, s) && s.removed == removed && s.merged == merged
    requires SpotAssignment.Distinct(alloc)
    requires forall n :: n in source.all && n.Spot? ==> n.reg in alloc
    ensures Popping(source.View(), |alloc|, s, alloc, 0, spots, spilled, slots)
    ensures BestFrom(source.View(), removed, s.root, alloc, spots, 0, slots)
  {
    spots, spilled, slots := map[], {}, 0;
    var j := |removed|;
    ghost var o := source.View();
    assert removed[j..] == [];
    while j > 0
      invariant Popping(o, |alloc|, s, alloc, j, spots, spilled, slots)
      invariant BestFrom(o, removed, s.root, alloc, spots, j, slots)
    {
      j := j - 1;
      assert removed[j] in s.removed && removed[j] in o.all;
      spots, spilled, slots := PopOne(source.View(), alloc, removed[j], merged, spots, spilled, slots, s, j);
    }
  }

  lemma ConflictsAreAgainst(o: Graph, s: State, cur: Node, y: Node)
    requires TreesAreGroups(s.merged, s.rank, s.root) && cur in s.root && s.root[cur] == cur
    ensures (exists x :: TreeConflict(o, s.merged, s.rank, cur, x, y)) <==> Against(o, s.root, cur, y)
  {
    assert Tree(s.merged, s.rank, cur) == Group(s.root, cur);
    if x :| TreeConflict(o, s.merged, s.rank, cur, x, y) {
      assert x in Group(s.root, cur);
    }
    if Against(o, s.root, cur, y) {
      var x :| x in s.root && s.root[x] == cur && Conf(o, x, y);
      assert x in Group(s.root, cur);
      assert TreeConflict(o, s.merged, s.rank, cur, x, y);
    }
  }

  /** A correct colouring of `o` with the registers `alloc`. */
  ghost predicate GoodColouring(o: Graph, alloc: seq<nat>, spots: Spots) {
    // total: every node of the graph has a spot, and no other node
    && (forall n :: n in spots <==> n in o.all)
    // sound: conflicting nodes have different spots
    && Proper(o, spots)
    // a register handed out is allocatable, and a register stands for itself
    && (forall n :: n in spots && spots[n].InReg? ==> spots[n].reg in alloc)
    && (forall n :: n in spots && n.Spot? ==> spots[n] == InReg(n.reg))
  }

  /** How the spots fit the run `moves`, which grouped the nodes by `root`: merged
      nodes share a spot; every group's node was simplified or pushed
      optimistically, not both; only one pushed optimistically can be spilled, which
      puts the whole group on the stack. */
  ghost predicate SpotsFollow(moves: seq<Move>, root: Roots, spots: Spots, spilled: set<Node>) {
    && root.Keys == spots.Keys
    && (forall x, y :: x in root && y in root && root[x] == root[y] ==> spots[x] == spots[y])
    && (forall x :: x in root && root[x].Var? ==> root[x] in SimplifiedBy(moves) || root[x] in OptimisticBy(moves))
    && SimplifiedBy(moves) !! OptimisticBy(moves) && spilled <= OptimisticBy(moves)
    && (forall x :: x in root ==> (spots[x].OnStack? <==> root[x] in spilled))
  }

  /** Register allocation of one function's graph.  The run takes the graph apart
      completely; the spots are a correct colouring that follows the run; and if
      repeatedly deleting nodes of degree below the number of registers empties
      the graph of real nodes, nothing is pushed optimistically or spilled at all. */
  method AllocateRegisters(source: NodeGraph, alloc: seq<nat>)
    returns (spots: Spots, spilled: set<Node>, ghost moves: seq<Move>, ghost left: Graph, ghost root: Roots)
    requires source.Valid()
    requires SpotAssignment.Distinct(alloc)
    requires forall n :: n in source.all && n.Spot? ==> n.reg in alloc
    ensures Performed(source.View(), |alloc|, moves, left, root) && left.all == []
    ensures GoodColouring(source.View(), alloc, spots)
    ensures SpotsFollow(moves, root, spots, spilled)
    ensures BestThroughout(source.View(), StackOf(moves), root, alloc, spots)
    ensures Emptiable(source.View().conf, |alloc|) ==> OptimisticBy(moves) == {} && spilled == {}
  {
    ghost var o := source.View();
    var run := new Reduction(source, |alloc|);
    run.Reduce();
    ghost var s := run.Now();
    var slots;
    spots, spilled, slots := GenerateSpotmap(source, alloc, run.removed, run.merged, s);
    moves, left, root := run.h.moves, s.g, s.root;
    AllPlaced(o, s, alloc, spots, spilled, slots, moves);
  }

  /** When the stack is empty everything has its spot. */
  lemma AllPlaced(o: Graph, s: State, alloc: seq<nat>, spots: Spots, spilled: set<Node>, next: nat, moves: seq<Move>)
    requires Reduced(o, |alloc|, s) && Reached(o, |alloc|, moves, s)
    requires Popping(o, |alloc|, s, alloc, 0, spots, spilled, next)
    ensures forall n :: n in spots <==> n in o.all
    ensures SpotsFollow(moves, s.root, spots, spilled)
  {
    assert SimplifiedBy(moves) !! OptimisticBy(moves) by { PushedOnce(o, |alloc|, moves, s.g, s.root); }
    AllOnStack(o, |alloc|, s, spots);
    PushedHow(o, |alloc|, s, OptimisticBy(moves));
    assert spilled <= OptimisticBy(moves) by { SpilledAreOptimistic(o, |alloc|, s, OptimisticBy(moves), alloc, spots, spilled, next); }
  }

  lemma AllOnStack(o: Graph, k: nat, s: State, spots: Spots)
    requires GroupsOk(o, s) && s.g.all == [] && Placed(s, 0, spots)
    ensures s.root.Keys == spots.Keys
    ensures forall n :: n in spots <==> n in o.all
  {
    assert s.removed[0..] == s.removed;
    forall x | x in s.root
      ensures x in spots
    {
      assert s.root[x] in s.g.all || s.root[x] in s.removed;
    }
  }

  lemma PushedHow(o: Graph, k: nat, s: State, optimistic: set<Node>)
    requires GroupsOk(o, s) && s.g.all == []
    requires forall n :: n in s.removed && n.Var? ==> n in s.low || n in optimistic
    ensures forall x :: x in s.root && s.root[x].Var? ==> s.root[x] in s.low || s.root[x] in optimistic
  {
    forall x | x in s.root && s.root[x].Var?
      ensures s.root[x] in s.low || s.root[x] in optimistic
    {
      assert s.root[x] in s.g.all || s.root[x] in s.removed;
    }
  }

  lemma SpilledAreOptimistic(o: Graph, k: nat, s: State, optimistic: set<Node>, alloc: seq<nat>, spots: Spots, spilled: set<Node>, next: nat)
    requires PlacesOk(s, alloc, spots, spilled, next)
    requires forall n :: n in s.removed && n.Var? ==> n in s.low || n in optimistic
    ensures spilled <= optimistic
  {
  }
}
