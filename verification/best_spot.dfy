/** Which spot a node gets: the best register that is left when it is popped. */
module BestSpots {
  import opened Graphs
  import opened ColouringState
  import opened MergeForest
  import opened SpotAssignment

  /** A group popped before the node at stack position `i` (so above it on the stack)
      conflicts with that node's group and has register `r`. */
  ghost predicate HeldAbove(o: Graph, stack: seq<Node>, root: Roots, spots: Spots, i: nat, r: nat)
    requires i < |stack|
  {
    exists y :: HolderAbove(o, stack, root, spots, i, r, y)
  }

  ghost predicate HolderAbove(o: Graph, stack: seq<Node>, root: Roots, spots: Spots, i: nat, r: nat, y: Node)
    requires i < |stack|
  {
    y in root && root[y] in stack[i + 1..] && Against(o, root, stack[i], y) && y in spots && spots[y] == InReg(r)
  }

  /** Nodes from stack position `j` up that were put on the stack frame. */
  function Spills(stack: seq<Node>, spots: Spots, j: nat): nat
    requires j <= |stack|
    decreases |stack| - j
  {
    if j == |stack| then 0
    else Spills(stack, spots, j + 1) + if stack[j] in spots && spots[stack[j]].OnStack? then 1 else 0
  }

  /** The real node at stack position `i` has the register of least index in `alloc`
      that no conflicting group popped before it has, and the next stack slot if and
      only if there is none. */
  ghost predicate BestSpot(o: Graph, stack: seq<Node>, root: Roots, alloc: seq<nat>, spots: Spots, i: nat)
    requires i < |stack|
  {
    var n := stack[i];
    && n in spots
    && (n.Var? ==>
          match spots[n]
          case OnStack(slot) => slot == Spills(stack, spots, i + 1) && forall r :: r in alloc ==> HeldAbove(o, stack, root, spots, i, r)
          case InReg(reg) =>
            && reg in alloc && !HeldAbove(o, stack, root, spots, i, reg)
            && forall r :: r in alloc && !HeldAbove(o, stack, root, spots, i, r) ==> IndexIn(alloc, reg) <= IndexIn(alloc, r))
  }

  /** Spots handed out later do not change what was decided higher on the stack. */
  lemma BestStays(o: Graph, stack: seq<Node>, root: Roots, alloc: seq<nat>, spots: Spots, spots1: Spots, i: nat)
    requires i < |stack| && BestSpot(o, stack, root, alloc, spots, i)
    requires OwnRoots(stack, root) && SameAbove(stack, root, spots, spots1, i)
    ensures BestSpot(o, stack, root, alloc, spots1, i)
  {
    assert stack[i] in stack[i..];
    FewerAbove(stack, root, spots, spots1, i, i + 1);
    forall r: nat
      ensures HeldAbove(o, stack, root, spots1, i, r) <==> HeldAbove(o, stack, root, spots, i, r)
    {
      HeldStays(o, stack, root, spots, spots1, i, r);
    }
    SpillsStay(stack, root, spots, spots1, i + 1);
  }

  lemma {:induction false} SpillsStay(stack: seq<Node>, root: Roots, spots: Spots, spots1: Spots, j: nat)
    requires j <= |stack|
    requires OwnRoots(stack, root) && SameAbove(stack, root, spots, spots1, j)
    ensures Spills(stack, spots, j) == Spills(stack, spots1, j)
    decreases |stack| - j
  {
    if j < |stack| {
      assert stack[j] in stack[j..];
      FewerAbove(stack, root, spots, spots1, j, j + 1);
      SpillsStay(stack, root, spots, spots1, j + 1);
    }
  }

  /** Everything popped from stack position `j` up got its best spot, and `next` is the
      next stack slot. */
  ghost predicate BestFrom(o: Graph, stack: seq<Node>, root: Roots, alloc: seq<nat>, spots: Spots, j: nat, next: nat) {
    j <= |stack| && next == Spills(stack, spots, j) && forall i :: j <= i < |stack| ==> BestSpot(o, stack, root, alloc, spots, i)
  }

  ghost predicate BestThroughout(o: Graph, stack: seq<Node>, root: Roots, alloc: seq<nat>, spots: Spots) {
    forall i :: 0 <= i < |stack| ==> BestSpot(o, stack, root, alloc, spots, i)
  }

  /** The stacked nodes stand for their groups. */
  ghost predicate OwnRoots(stack: seq<Node>, root: Roots) {
    forall m :: 0 <= m < |stack| ==> stack[m] in root && root[stack[m]] == stack[m]
  }

  /** The two assignments agree on every group from stack position `j` up. */
  ghost predicate SameAbove(stack: seq<Node>, root: Roots, spots: Spots, spots1: Spots, j: nat)
    requires j <= |stack|
  {
    forall y :: y in root && root[y] in stack[j..] ==> y in spots && y in spots1 && spots[y] == spots1[y]
  }

  /** `place` is the best for the node at position `i`, given the spots above it. */
  ghost predicate BestPlace(o: Graph, stack: seq<Node>, root: Roots, alloc: seq<nat>, spots: Spots, i: nat, place: Place, next: nat)
    requires i < |stack|
  {
    stack[i].Var? ==>
      match place
      case OnStack(slot) => slot == next && forall r :: r in alloc ==> HeldAbove(o, stack, root, spots, i, r)
      case InReg(reg) =>
        && reg in alloc && !HeldAbove(o, stack, root, spots, i, reg)
        && forall r :: r in alloc && !HeldAbove(o, stack, root, spots, i, r) ==> IndexIn(alloc, reg) <= IndexIn(alloc, r)
  }

  lemma HeldStays(o: Graph, stack: seq<Node>, root: Roots, spots: Spots, spots1: Spots, i: nat, r: nat)
    requires i < |stack| && SameAbove(stack, root, spots, spots1, i + 1)
    ensures HeldAbove(o, stack, root, spots1, i, r) <==> HeldAbove(o, stack, root, spots, i, r)
  {
    if y :| HolderAbove(o, stack, root, spots, i, r, y) {
      assert HolderAbove(o, stack, root, spots1, i, r, y);
    }
    if y :| HolderAbove(o, stack, root, spots1, i, r, y) {
      assert HolderAbove(o, stack, root, spots, i, r, y);
    }
  }

  lemma BestThere(o: Graph, stack: seq<Node>, root: Roots, alloc: seq<nat>, spots: Spots, spots1: Spots, i: nat, place: Place, next: nat)
    requires i < |stack| && OwnRoots(stack, root) && SameAbove(stack, root, spots, spots1, i + 1)
    requires BestPlace(o, stack, root, alloc, spots, i, place, next) && next == Spills(stack, spots, i + 1)
    requires stack[i] in spots1 && spots1[stack[i]] == place
    ensures BestSpot(o, stack, root, alloc, spots1, i)
  {
    SpillsStay(stack, root, spots, spots1, i + 1);
    forall r: nat
      ensures HeldAbove(o, stack, root, spots1, i, r) <==> HeldAbove(o, stack, root, spots, i, r)
    {
      HeldStays(o, stack, root, spots, spots1, i, r);
    }
  }

  /** Giving the node at position `i` its best place keeps everything above it best. */
  lemma BestNext(o: Graph, stack: seq<Node>, root: Roots, alloc: seq<nat>, spots: Spots, spots1: Spots, i: nat, place: Place, next: nat)
    requires i < |stack| && OwnRoots(stack, root) && SameAbove(stack, root, spots, spots1, i + 1)
    requires BestFrom(o, stack, root, alloc, spots, i + 1, next) && BestPlace(o, stack, root, alloc, spots, i, place, next)
    requires stack[i] in spots1 && spots1[stack[i]] == place
    ensures BestFrom(o, stack, root, alloc, spots1, i, if place.OnStack? then next + 1 else next)
  {
    SpillsStay(stack, root, spots, spots1, i + 1);
    BestThere(o, stack, root, alloc, spots, spots1, i, place, next);
    forall m | i < m < |stack|
      ensures BestSpot(o, stack, root, alloc, spots1, m)
    {
      FewerAbove(stack, root, spots, spots1, i + 1, m);
      BestStays(o, stack, root, alloc, spots, spots1, m);
    }
  }

  lemma FewerAbove(stack: seq<Node>, root: Roots, spots: Spots, spots1: Spots, j: nat, m: nat)
    requires j <= m <= |stack| && SameAbove(stack, root, spots, spots1, j)
    ensures SameAbove(stack, root, spots, spots1, m)
  {
    assert forall n :: n in stack[m..] ==> n in stack[j..];
  }

  // ---- in the allocator ----

  /** What rules a register out for a popped real node is a conflicting group above it
      on the stack that has it. */
  lemma BlockedIsHeld(o: Graph, s: State, alloc: seq<nat>, i: nat, spots: Spots, spilled: set<Node>, next: nat, conflicts: set<Node>, r: nat)
    requires Reduced(o, |alloc|, s) && Popping(o, |alloc|, s, alloc, i + 1, spots, spilled, next) && i < |s.removed| && s.removed[i].Var?
    requires forall y :: y in conflicts <==> Against(o, s.root, s.removed[i], y)
    ensures (exists y :: y in conflicts && Blocks(spots, y, r)) <==> HeldAbove(o, s.removed, s.root, spots, i, r)
  {
    if y :| y in conflicts && Blocks(spots, y, r) {
      if y == Spot(r) {
        SpotIsPlaced(o, s, alloc, i, spots, spilled, next, y);
      }
      assert HolderAbove(o, s.removed, s.root, spots, i, r, y);
    }
    if y :| HolderAbove(o, s.removed, s.root, spots, i, r, y) {
      assert y in conflicts && Blocks(spots, y, r);
    }
  }

  lemma SpotIsPlaced(o: Graph, s: State, alloc: seq<nat>, i: nat, spots: Spots, spilled: set<Node>, next: nat, y: Node)
    requires Reduced(o, |alloc|, s) && Popping(o, |alloc|, s, alloc, i + 1, spots, spilled, next) && i < |s.removed| && s.removed[i].Var?
    requires y.Spot? && Against(o, s.root, s.removed[i], y)
    ensures y in spots && spots[y] == InReg(y.reg)
  {
    var x :| x in s.root && s.root[x] == s.removed[i] && Conf(o, x, y);
    assert Conf(o, y, x);
    assert y in o.all && y in s.root && s.root[y] == y;
    assert s.root[y] in s.g.all || s.root[y] in s.removed;
    DummyAbove(s.removed, i + 1, y);
  }

  /** What the choice of a spot promises about the popped node `cur`. */
  ghost predicate Chosen(cur: Node, conflicts: set<Node>, alloc: seq<nat>, spots: Spots, next: nat, place: Place) {
    && (cur.Var? && place.InReg? ==>
          && place.reg in alloc && (forall y :: y in conflicts ==> !Blocks(spots, y, place.reg))
          && forall r :: r in alloc && (forall y :: y in conflicts ==> !Blocks(spots, y, r)) ==> IndexIn(alloc, place.reg) <= IndexIn(alloc, r))
    && (place.OnStack? ==> place.slot == next && forall r :: r in alloc ==> exists y :: y in conflicts && Blocks(spots, y, r))
  }

  lemma ChosenIsBest(o: Graph, s: State, alloc: seq<nat>, i: nat, spots: Spots, spilled: set<Node>, next: nat, conflicts: set<Node>, place: Place)
    requires Reduced(o, |alloc|, s) && Popping(o, |alloc|, s, alloc, i + 1, spots, spilled, next) && i < |s.removed|
    requires forall y :: y in conflicts <==> Against(o, s.root, s.removed[i], y)
    requires Chosen(s.removed[i], conflicts, alloc, spots, next, place)
    ensures BestPlace(o, s.removed, s.root, alloc, spots, i, place, next)
  {
    if s.removed[i].Var? {
      forall r: nat
        ensures (exists y :: y in conflicts && Blocks(spots, y, r)) <==> HeldAbove(o, s.removed, s.root, spots, i, r)
      {
        BlockedIsHeld(o, s, alloc, i, spots, spilled, next, conflicts, r);
      }
    }
  }

  lemma AboveUnchanged(o: Graph, s: State, i: nat, spots: Spots, place: Place)
    requires NoDup(s.removed) && GroupsOk(o, s) && i < |s.removed| && Placed(s, i + 1, spots)
    ensures var spots1 := Assigned(spots, Group(s.root, s.removed[i]), place);
            SameAbove(s.removed, s.root, spots, spots1, i + 1) && s.removed[i] in spots1 && spots1[s.removed[i]] == place
    ensures OwnRoots(s.removed, s.root)
  {
    NotAbove(s.removed, i, i);
    assert forall m :: 0 <= m < |s.removed| ==> s.removed[m] in s.removed;
  }

  lemma PopIsBest(o: Graph, s: State, alloc: seq<nat>, i: nat, spots: Spots, spilled: set<Node>, next: nat, conflicts: set<Node>, place: Place)
    requires Reduced(o, |alloc|, s) && Popping(o, |alloc|, s, alloc, i + 1, spots, spilled, next) && i < |s.removed|
    requires forall y :: y in conflicts <==> Against(o, s.root, s.removed[i], y)
    requires Chosen(s.removed[i], conflicts, alloc, spots, next, place)
    requires BestFrom(o, s.removed, s.root, alloc, spots, i + 1, next)
    ensures BestFrom(o, s.removed, s.root, alloc, Assigned(spots, Group(s.root, s.removed[i]), place), i, if place.OnStack? then next + 1 else next)
  {
    ChosenIsBest(o, s, alloc, i, spots, spilled, next, conflicts, place);
    AboveUnchanged(o, s, i, spots, place);
    BestNext(o, s.removed, s.root, alloc, spots, Assigned(spots, Group(s.root, s.removed[i]), place), i, place, next);
  }
}
