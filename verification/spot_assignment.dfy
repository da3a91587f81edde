/** Popping the colouring stack: every node gets a register or a stack slot. */
module SpotAssignment {
  import opened Graphs
  import opened MergeForest
  import opened ColouringState

  datatype Place = InReg(reg: nat) | OnStack(slot: nat)

  type Spots = map<Node, Place>

  // ---- the stack ----

  predicate SpotStaysAbove(stack: seq<Node>, i: nat, j: nat) {
    i < j < |stack| && stack[i].Spot? ==> stack[j].Spot?
  }

  /** On the stack every dummy node is above every real one. */
  ghost predicate DummiesOnTop(stack: seq<Node>) {
    forall i: nat, j: nat {:trigger SpotStaysAbove(stack, i, j)} :: SpotStaysAbove(stack, i, j)
  }

  lemma DummyPushed(stack: seq<Node>, n: Node)
    requires DummiesOnTop(stack) && n.Spot?
    ensures DummiesOnTop(stack + [n])
  {
    forall i: nat, j: nat
      ensures SpotStaysAbove(stack + [n], i, j)
    {
      assert SpotStaysAbove(stack, i, j);
    }
  }

  lemma NoDummiesYet(stack: seq<Node>)
    requires forall n :: n in stack ==> n.Var?
    ensures DummiesOnTop(stack)
  {
    forall i: nat, j: nat
      ensures SpotStaysAbove(stack, i, j)
    {
      assert i < |stack| ==> stack[i] in stack;
    }
  }

  /** The reduced state: everything has been pushed. */
  ghost predicate Reduced(o: Graph, k: nat, s: State) {
    && Inv(o, k, s) && s.g.all == [] && DummiesOnTop(s.removed)
  }

  // ---- what holds when the nodes from `j` up have their spots ----

  ghost predicate Placed(s: State, j: nat, spots: Spots)
    requires j <= |s.removed|
  {
    && (forall x :: x in spots <==> x in s.root && s.root[x] in s.removed[j..])
    && (forall x, y {:trigger spots[x], spots[y]} :: x in spots && y in spots && s.root[x] == s.root[y] ==> spots[x] == spots[y])
  }

  /** Conflicting nodes never share a spot. */
  ghost predicate Proper(o: Graph, spots: Spots) {
    forall x, y {:trigger Conf(o, x, y)} :: x in spots && y in spots && Conf(o, x, y) ==> spots[x] != spots[y]
  }

  ghost predicate PlacesOk(s: State, alloc: seq<nat>, spots: Spots, spilled: set<Node>, next: nat) {
    && (forall x :: x in spots && x.Spot? ==> spots[x] == InReg(x.reg))
    && (forall x :: x in spots && spots[x].InReg? ==> spots[x].reg in alloc)
    && (forall x :: x in spots && spots[x].OnStack? ==> spots[x].slot < next)
    && (forall x :: x in spots ==> x in s.root && (spots[x].OnStack? <==> s.root[x] in spilled))
    && (forall n :: n in spilled ==> n.Var? && n !in s.low && n in s.removed && n in spots)
  }

  ghost predicate Popping(o: Graph, k: nat, s: State, alloc: seq<nat>, j: nat, spots: Spots, spilled: set<Node>, next: nat) {
    && j <= |s.removed|
    && Placed(s, j, spots) && Proper(o, spots)
    && PlacesOk(s, alloc, spots, spilled, next)
  }

  /** `place` for the group of `n`, everything else as before. */
  function Assigned(spots: Spots, group: set<Node>, place: Place): Spots {
    map x | x in spots.Keys + group :: if x in group then place else spots[x]
  }

  lemma PlacedNext(s: State, j: nat, spots: Spots, place: Place)
    requires 0 < j <= |s.removed| && Placed(s, j, spots) && NoDup(s.removed)
    ensures Placed(s, j - 1, Assigned(spots, Group(s.root, s.removed[j - 1]), place))
  {
    var n := s.removed[j - 1];
    assert s.removed[j - 1..] == [n] + s.removed[j..];
    assert n !in s.removed[j..] by { NotAbove(s.removed, j - 1, j - 1); }
  }

  /** An entry at or below `i` does not occur above `i`. */
  lemma NotAbove(stack: seq<Node>, at: nat, i: nat)
    requires NoDup(stack) && at <= i < |stack|
    ensures stack[at] !in stack[i + 1..]
  {
    forall m: nat | i + 1 <= m < |stack|
      ensures stack[m] != stack[at]
    {
      assert Differ(stack, at, m);
    }
  }

  /** A place that no conflicting, already placed node has keeps the colouring proper. */
  lemma ProperNext(o: Graph, k: nat, s: State, j: nat, spots: Spots, n: Node, place: Place)
    requires Inv(o, k, s) && j <= |s.removed| && Placed(s, j, spots) && Proper(o, spots)
    requires forall y :: y in spots && Against(o, s.root, n, y) ==> spots[y] != place
    ensures Proper(o, Assigned(spots, Group(s.root, n), place))
  {
    var group := Group(s.root, n);
    var spots1 := Assigned(spots, group, place);
    forall x, y | x in spots1 && y in spots1 && Conf(o, x, y)
      ensures spots1[x] != spots1[y]
    {
      assert Conf(o, y, x);
      if x in group && y !in group {
        assert Against(o, s.root, n, y);
      } else if y in group && x !in group {
        assert Against(o, s.root, n, x);
      }
    }
  }

  /** Popping a dummy node: its register is free for it. */
  lemma DummyIsFree(o: Graph, k: nat, s: State, alloc: seq<nat>, j: nat, spots: Spots, spilled: set<Node>, next: nat, y: Node)
    requires Reduced(o, k, s) && Popping(o, k, s, alloc, j, spots, spilled, next)
    requires j > 0 && s.removed[j - 1].Spot? && y in spots
    ensures spots[y] != InReg(s.removed[j - 1].reg)
  {
    var n, d := s.removed[j - 1], s.root[y];
    assert d in s.removed[j..];
    var m: nat :| m < |s.removed[j..]| && s.removed[j..][m] == d;
    assert s.removed[j + m] == d;
    assert SpotStaysAbove(s.removed, j - 1, j + m);
    assert Differ(s.removed, j - 1, j + m);
    assert d in s.removed && s.root[d] == d && d in spots;
    assert spots[y] == spots[d] == InReg(d.reg);
  }

  // ---- simplified nodes always find a register ----

  function RegsOf(cs: set<Node>, spots: Spots): set<nat> {
    set c | c in cs && c in spots && spots[c].InReg? :: spots[c].reg
  }

  lemma {:induction false} RegsOfSize(cs: set<Node>, spots: Spots)
    ensures |RegsOf(cs, spots)| <= |cs|
    decreases |cs|
  {
    if cs == {} {
      assert RegsOf(cs, spots) == {};
    } else {
      var c :| c in cs;
      var rest := cs - {c};
      RegsOfSize(rest, spots);
      if c in spots && spots[c].InReg? {
        assert RegsOf(cs, spots) == RegsOf(rest, spots) + {spots[c].reg};
      } else {
        assert RegsOf(cs, spots) == RegsOf(rest, spots);
      }
    }
  }

  /** Register `r` is ruled out by `y`: it is that spot, or was given to that node. */
  predicate Blocks(spots: Spots, y: Node, r: nat) {
    y == Spot(r) || (y in spots && spots[y] == InReg(r))
  }

  /** A register ruled out for a real node is the register of a node it
      conflicted with when it was pushed. */
  lemma BlockedIsSeen(o: Graph, k: nat, s: State, alloc: seq<nat>, j: nat, spots: Spots, spilled: set<Node>, next: nat, y: Node, r: nat)
    requires Reduced(o, k, s) && Popping(o, k, s, alloc, j, spots, spilled, next)
    requires j > 0 && s.removed[j - 1].Var? && Against(o, s.root, s.removed[j - 1], y) && Blocks(spots, y, r)
    ensures s.removed[j - 1] in s.seen && r in RegsOf(s.seen[s.removed[j - 1]], spots)
  {
    var n := s.removed[j - 1];
    BlockerIsPlaced(o, k, s, alloc, j, spots, spilled, next, y, r);
    assert SeenCovers(o, s, j - 1);
    assert s.root[y] !in s.removed[..j] by {
      var m: nat :| m < |s.removed[j..]| && s.removed[j..][m] == s.root[y];
      NotBelow(s.removed, j, j + m);
    }
    var c :| c in s.seen[n] && Covers(s, c, y);
    assert c in spots && spots[c] == spots[y];
  }

  /** What rules a register out has it: dummies are popped first. */
  lemma BlockerIsPlaced(o: Graph, k: nat, s: State, alloc: seq<nat>, j: nat, spots: Spots, spilled: set<Node>, next: nat, y: Node, r: nat)
    requires Reduced(o, k, s) && Popping(o, k, s, alloc, j, spots, spilled, next)
    requires j > 0 && s.removed[j - 1].Var? && Against(o, s.root, s.removed[j - 1], y) && Blocks(spots, y, r)
    ensures y in spots && spots[y] == InReg(r)
  {
    if y.Spot? {
      var x :| x in s.root && s.root[x] == s.removed[j - 1] && Conf(o, x, y);
      assert Conf(o, y, x);
      assert s.root[y] == y && y in s.removed;
      DummyAbove(s.removed, j, y);
    }
  }

  lemma DummyAbove(stack: seq<Node>, j: nat, y: Node)
    requires DummiesOnTop(stack) && 0 < j <= |stack| && stack[j - 1].Var? && y.Spot? && y in stack
    ensures y in stack[j..]
  {
    var m: nat :| m < |stack| && stack[m] == y;
    assert SpotStaysAbove(stack, m, j - 1);
    assert stack[j..][m - j] == y;
  }

  lemma NotBelow(stack: seq<Node>, i: nat, at: nat)
    requires NoDup(stack) && i <= at < |stack|
    ensures stack[at] !in stack[..i]
  {
    forall m: nat | m < i
      ensures stack[m] != stack[at]
    {
      assert Differ(stack, m, at);
    }
  }

  function RegSet(alloc: seq<nat>): set<nat> {
    set r | r in alloc
  }

  lemma {:induction false} RegSetSize(alloc: seq<nat>)
    requires forall i, j :: 0 <= i < j < |alloc| ==> alloc[i] != alloc[j]
    ensures |RegSet(alloc)| == |alloc|
  {
    if alloc != [] {
      RegSetSize(alloc[1..]);
      assert RegSet(alloc) == RegSet(alloc[1..]) + {alloc[0]};
      assert alloc[0] !in alloc[1..];
    }
  }

  /** A node pushed by simplify finds a register when it is popped, whatever was
      merged in between: fewer registers are ruled out than there are. */
  lemma LowFindsRegister(o: Graph, s: State, alloc: seq<nat>, j: nat, spots: Spots, spilled: set<Node>, next: nat)
    requires Reduced(o, |alloc|, s) && Popping(o, |alloc|, s, alloc, j, spots, spilled, next)
    requires forall a, b :: 0 <= a < b < |alloc| ==> alloc[a] != alloc[b]
    requires j > 0 && s.removed[j - 1] in s.low
    ensures exists r :: r in alloc && forall y :: Against(o, s.root, s.removed[j - 1], y) ==> !Blocks(spots, y, r)
  {
    var n := s.removed[j - 1];
    var taken := RegsOf(s.seen[n], spots);
    RegsOfSize(s.seen[n], spots);
    RegSetSize(alloc);
    if RegSet(alloc) <= taken {
      Conservatively(RegSet(alloc), taken);
    }
    var r :| r in RegSet(alloc) && r !in taken;
    forall y | Against(o, s.root, n, y)
      ensures !Blocks(spots, y, r)
    {
      if Blocks(spots, y, r) {
        BlockedIsSeen(o, |alloc|, s, alloc, j, spots, spilled, next, y, r);
      }
    }
  }

  lemma Conservatively(a: set<nat>, b: set<nat>)
    requires a <= b
    ensures |a| <= |b|
  {
    assert b == a + (b - a);
  }

  // ---- the registers a node may take, in order of preference ----

  function IndexIn(alloc: seq<nat>, r: nat): nat
    requires r in alloc
  {
    if alloc[0] == r then 0 else 1 + IndexIn(alloc[1..], r)
  }

  lemma {:induction false} IndexIs(alloc: seq<nat>, r: nat)
    requires r in alloc
    ensures IndexIn(alloc, r) < |alloc| && alloc[IndexIn(alloc, r)] == r
  {
    if alloc[0] != r {
      IndexIs(alloc[1..], r);
    }
  }

  function DropReg(regs: seq<nat>, r: nat): seq<nat> {
    if regs == [] then [] else if regs[0] == r then regs[1..] else [regs[0]] + DropReg(regs[1..], r)
  }

  ghost predicate Distinct(regs: seq<nat>) {
    forall i, j :: 0 <= i < j < |regs| ==> regs[i] != regs[j]
  }

  /** `regs` runs through `alloc` backwards. */
  ghost predicate Backwards(alloc: seq<nat>, regs: seq<nat>) {
    && (forall r :: r in regs ==> r in alloc)
    && (regs == [] || ((forall r :: r in regs[1..] && r in alloc && regs[0] in alloc ==> IndexIn(alloc, r) < IndexIn(alloc, regs[0]))
                       && Backwards(alloc, regs[1..])))
  }

  lemma {:induction false} DropKeepsOrder(alloc: seq<nat>, regs: seq<nat>, r: nat)
    requires Backwards(alloc, regs) && Distinct(regs)
    ensures Backwards(alloc, DropReg(regs, r))
  {
    if regs != [] && regs[0] != r {
      DropKeepsOrder(alloc, regs[1..], r);
      DropRegElements(regs[1..], r);
      assert DropReg(regs, r)[1..] == DropReg(regs[1..], r);
    }
  }

  /** The last register of a backwards list comes first in the order of preference. */
  lemma {:induction false} LastIsPreferred(alloc: seq<nat>, regs: seq<nat>)
    requires Backwards(alloc, regs) && regs != []
    ensures forall r :: r in regs ==> IndexIn(alloc, regs[|regs| - 1]) <= IndexIn(alloc, r)
  {
    if |regs| > 1 {
      LastIsPreferred(alloc, regs[1..]);
      assert regs[1..][|regs| - 2] == regs[|regs| - 1];
      assert forall r :: r in regs <==> r == regs[0] || r in regs[1..];
    }
  }

  lemma {:induction false} ReversedIsBackwards(alloc: seq<nat>, regs: seq<nat>, n: nat)
    requires Distinct(alloc) && n <= |alloc| && |regs| == n
    requires forall i :: 0 <= i < n ==> regs[i] == alloc[n - 1 - i]
    ensures Backwards(alloc, regs)
    decreases n
  {
    forall i | 0 <= i < n
      ensures regs[i] in alloc && IndexIn(alloc, regs[i]) == n - 1 - i
    {
      assert regs[i] == alloc[n - 1 - i];
      IndexIs(alloc, regs[i]);
    }
    if n > 0 {
      ReversedIsBackwards(alloc, regs[1..], n - 1);
      forall r | r in regs[1..]
        ensures IndexIn(alloc, r) < IndexIn(alloc, regs[0])
      {
        var i :| 0 <= i < n - 1 && regs[1..][i] == r;
        assert regs[i + 1] == r;
      }
    }
  }

  lemma {:induction false} DropRegElements(regs: seq<nat>, r: nat)
    requires Distinct(regs)
    ensures Distinct(DropReg(regs, r)) && forall x :: x in DropReg(regs, r) <==> x in regs && x != r
  {
    if regs != [] {
      DropRegElements(regs[1..], r);
      assert forall x :: x in regs <==> x == regs[0] || x in regs[1..];
      assert regs[0] !in regs[1..];
      if regs[0] != r {
        assert regs[0] !in DropReg(regs[1..], r);
      }
    }
  }

  method Reversed(alloc: seq<nat>) returns (r: seq<nat>)
    ensures |r| == |alloc| && forall i :: 0 <= i < |r| ==> r[i] == alloc[|alloc| - 1 - i]
  {
    r := [];
    for i := 0 to |alloc|
      invariant |r| == i && forall m :: 0 <= m < i ==> r[m] == alloc[i - 1 - m]
    {
      r := [alloc[i]] + r;
    }
  }

  /** The allocatable registers no conflict rules out, least preferred first. */
  method FreeRegisters(alloc: seq<nat>, conflicts: set<Node>, spots: Spots) returns (regs: seq<nat>)
    requires Distinct(alloc)
    ensures Backwards(alloc, regs)
    ensures forall r :: r in regs <==> r in alloc && forall y :: y in conflicts ==> !Blocks(spots, y, r)
  {
    regs := Reversed(alloc);
    ReversedIsBackwards(alloc, regs, |alloc|);
    assert forall r :: r in alloc ==> r in regs by {
      forall r | r in alloc ensures r in regs {
        var i :| 0 <= i < |alloc| && alloc[i] == r;
        assert regs[|alloc| - 1 - i] == r;
      }
    }
    var todo := conflicts;
    while todo != {}
      invariant todo <= conflicts && Distinct(regs) && Backwards(alloc, regs)
      invariant forall r :: r in regs <==> r in alloc && forall y :: y in conflicts - todo ==> !Blocks(spots, y, r)
    {
      var other :| other in todo;
      ghost var regs0 := regs;
      regs := RuleOut(alloc, regs, spots, other);
      RuledOut(alloc, conflicts, todo, spots, other, regs0, regs);
      todo := todo - {other};
    }
  }

  method RuleOut(ghost alloc: seq<nat>, regs0: seq<nat>, spots: Spots, other: Node) returns (regs: seq<nat>)
    requires Distinct(regs0) && Backwards(alloc, regs0)
    ensures Distinct(regs) && Backwards(alloc, regs)
    ensures forall r :: r in regs <==> r in regs0 && !Blocks(spots, other, r)
  {
    regs := regs0;
    if other.Spot? && other.reg in regs {
      DropRegElements(regs, other.reg);
      DropKeepsOrder(alloc, regs, other.reg);
      regs := DropReg(regs, other.reg);
    }
    if other in spots && spots[other].InReg? && spots[other].reg in regs {
      DropRegElements(regs, spots[other].reg);
      DropKeepsOrder(alloc, regs, spots[other].reg);
      regs := DropReg(regs, spots[other].reg);
    }
  }

  lemma RuledOut(alloc: seq<nat>, conflicts: set<Node>, todo: set<Node>, spots: Spots, other: Node, regs0: seq<nat>, regs: seq<nat>)
    requires other in todo && todo <= conflicts
    requires forall r :: r in regs0 <==> r in alloc && forall y :: y in conflicts - todo ==> !Blocks(spots, y, r)
    requires forall r :: r in regs <==> r in regs0 && !Blocks(spots, other, r)
    ensures forall r :: r in regs <==> r in alloc && forall y :: y in conflicts - (todo - {other}) ==> !Blocks(spots, y, r)
  {
    assert conflicts - (todo - {other}) == (conflicts - todo) + {other};
  }
}
