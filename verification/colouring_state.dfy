/** What the graph-colouring allocator maintains while it reduces the graph. */
module ColouringState {
  import opened Graphs
  import opened MergeForest
  import opened Conservative

  /** The working graph, the colouring stack and the merge table; and, for the
      proof, each node's representative, the ranks of the merge forest, each
      pushed node's conflicts at the time, and the nodes pushed by simplify. */
  datatype State = State(
    g: Graph, removed: seq<Node>, merged: Table,
    root: Roots, rank: map<Node, nat>, seen: map<Node, set<Node>>, low: set<Node>)

  /** Groups partition the original nodes; dummies stay their own representatives. */
  ghost predicate GroupsOk(o: Graph, s: State) {
    && Quotient(o, s.g, s.root)
    && (forall x :: x in s.root ==> s.root[x] in s.g.all || s.root[x] in s.removed)
    && (forall n :: n in s.removed ==> n !in s.g.all && n in s.root && s.root[n] == n)
    && (forall n :: n in o.all && n.Spot? ==> s.root[n] == n)
  }

  /** No two members of one group conflicted in the original graph. */
  ghost predicate Peaceful(o: Graph, root: Roots) {
    forall x, y {:trigger Conf(o, x, y)} :: x in root && y in root && Conf(o, x, y) ==> root[x] != root[y]
  }

  /** The group of `n` conflicts with `y`. */
  ghost predicate Against(o: Graph, root: Roots, n: Node, y: Node) {
    exists x :: x in root && root[x] == n && Conf(o, x, y)
  }

  /** Node `c` was a conflict of the pushed node and now stands for `y`. */
  ghost predicate Covers(s: State, c: Node, y: Node) {
    c in s.root && y in s.root && s.root[c] == s.root[y]
  }

  /** Whatever the node at stack position `i` conflicts with and is not below it
      on the stack is represented by one of its conflicts when it was pushed. */
  ghost predicate SeenCovers(o: Graph, s: State, i: nat)
    requires i < |s.removed|
  {
    var n := s.removed[i];
    n in s.seen && forall y :: y in s.root && s.root[y] !in s.removed[..i + 1] && Against(o, s.root, n, y) ==>
      exists c :: c in s.seen[n] && Covers(s, c, y)
  }

  ghost predicate StackOk(o: Graph, k: nat, s: State) {
    && NoDup(s.removed)
    && (forall i {:trigger SeenCovers(o, s, i)} :: 0 <= i < |s.removed| ==> SeenCovers(o, s, i))
    && (forall n :: n in s.low ==> n in s.seen && |s.seen[n]| < k && n in s.removed && n.Var?)
  }

  ghost predicate Inv(o: Graph, k: nat, s: State) {
    && WellFormed(o) && WellFormed(s.g)
    && GroupsOk(o, s) && Peaceful(o, s.root)
    && StackOk(o, k, s)
    && TreesAreGroups(s.merged, s.rank, s.root)
    && (Emptiable(o.conf, k) ==> Emptiable(s.g.conf, k))
  }

  ghost function Initial(o: Graph): State {
    State(o, [], map[], Identity(o.all), map x | x in Identity(o.all) :: 0, map[], {})
  }

  lemma InvStarts(o: Graph, k: nat)
    requires WellFormed(o)
    ensures Inv(o, k, Initial(o))
  {
    QuotientStarts(o);
    TreesStart(Identity(o.all));
    forall x, y | Conf(o, x, y)
      ensures x != y
    {
    }
  }

  // ---- pushing a node ----

  ghost function Push(s: State, n: Node, simplified: bool): State
    requires n in s.g.conf
  {
    s.(g := Popped(s.g, n), removed := s.removed + [n], seen := s.seen[n := s.g.conf[n]],
       low := if simplified then s.low + {n} else s.low)
  }

  /** At the moment of the push a conflict with a remaining group is a conflict
      with that group's representative. */
  lemma SeenNow(o: Graph, s: State, n: Node, y: Node)
    requires WellFormed(s.g) && Quotient(o, s.g, s.root) && n in s.g.all && y in s.root && s.root[y] in s.g.all
    requires Against(o, s.root, n, y)
    ensures s.root[y] in s.g.conf[n] && Covers(s, s.root[y], y)
  {
    var x :| x in s.root && s.root[x] == n && Conf(o, x, y);
    assert MembersConflict(o, s.root, n, s.root[y], x, y);
    assert GroupsConflict(o, s.root, n, s.root[y]);
    assert Conf(s.g, n, s.root[y]);
  }

  /** An entry of the stack keeps its cover while the groups stay the same. */
  lemma CoverStays(o: Graph, s: State, t: State, i: nat)
    requires i < |s.removed| && i < |t.removed| && SeenCovers(o, s, i)
    requires t.root == s.root && t.removed[..i + 1] == s.removed[..i + 1]
    requires s.removed[i] in t.seen && t.seen[s.removed[i]] == s.seen[s.removed[i]]
    ensures SeenCovers(o, t, i)
  {
    var n := s.removed[i];
    assert t.removed[i] == t.removed[..i + 1][i] == n;
    forall y | y in t.root && t.root[y] !in t.removed[..i + 1] && Against(o, t.root, n, y)
      ensures exists c :: c in t.seen[n] && Covers(t, c, y)
    {
      var c :| c in s.seen[n] && Covers(s, c, y);
      assert Covers(t, c, y);
    }
  }

  lemma CoverAtPush(o: Graph, k: nat, s: State, n: Node, simplified: bool)
    requires Inv(o, k, s) && n in s.g.all
    ensures SeenCovers(o, Push(s, n, simplified), |s.removed|)
  {
    var t := Push(s, n, simplified);
    assert t.removed[..|s.removed| + 1] == s.removed + [n];
    forall y | y in t.root && t.root[y] !in s.removed + [n] && Against(o, t.root, n, y)
      ensures exists c :: c in t.seen[n] && Covers(t, c, y)
    {
      SeenNow(o, s, n, y);
      assert Covers(t, s.root[y], y);
    }
  }

  lemma PushStack(o: Graph, k: nat, s: State, n: Node, simplified: bool)
    requires StackOk(o, k, s) && n in s.g.conf && n !in s.removed
    requires SeenCovers(o, Push(s, n, simplified), |s.removed|)
    requires simplified ==> n.Var? && |s.g.conf[n]| < k
    ensures StackOk(o, k, Push(s, n, simplified))
  {
    var t := Push(s, n, simplified);
    NoDupSnoc(s.removed, n);
    forall i | 0 <= i < |t.removed|
      ensures SeenCovers(o, t, i)
    {
      if i < |s.removed| {
        assert SeenCovers(o, s, i);
        assert s.removed[i] != n;
        CoverStays(o, s, t, i);
      }
    }
  }

  lemma PushKeeps(o: Graph, k: nat, s: State, n: Node, simplified: bool)
    requires Inv(o, k, s) && n in s.g.all
    requires simplified ==> n.Var? && |s.g.conf[n]| < k
    ensures Inv(o, k, Push(s, n, simplified))
  {
    PoppedKeeps(s.g, n);
    QuotientPopped(o, s.g, s.root, n);
    WithoutElements(s.g.all, n);
    CoverAtPush(o, k, s, n, simplified);
    PushStack(o, k, s, n, simplified);
    if Emptiable(s.g.conf, k) {
      PoppedEmptiable(s.g, n, k);
    }
  }

  // ---- merging ----

  ghost function Join(s: State, a: Node, b: Node): State
    requires a in s.g.conf && b in s.g.conf && a in s.g.pref && b in s.g.pref && a in s.rank && b in s.rank
  {
    s.(g := Merged(s.g, a, b), merged := Adopt(s.merged, a, b),
       root := Rerooted(s.root, a, b), rank := Raise(s.rank, a, b))
  }

  lemma AgainstAfterMerge(o: Graph, root: Roots, a: Node, b: Node, n: Node, y: Node)
    requires n != a && n != b
    ensures Against(o, Rerooted(root, a, b), n, y) <==> Against(o, root, n, y)
  {
    var r := Rerooted(root, a, b);
    if Against(o, r, n, y) {
      var x :| x in r && r[x] == n && Conf(o, x, y);
      assert root[x] == n;
    }
    if Against(o, root, n, y) {
      var x :| x in root && root[x] == n && Conf(o, x, y);
      assert r[x] == n;
    }
  }

  /** A merge of two remaining groups keeps every stack entry covered. */
  lemma CoverAfterJoin(o: Graph, s: State, t: State, a: Node, b: Node, i: nat)
    requires i < |s.removed| && SeenCovers(o, s, i)
    requires a !in s.removed && b !in s.removed
    requires t.removed == s.removed && t.seen == s.seen && t.root == Rerooted(s.root, a, b)
    ensures SeenCovers(o, t, i)
  {
    var n := s.removed[i];
    assert n in s.removed;
    forall y | y in t.root && t.root[y] !in t.removed[..i + 1] && Against(o, t.root, n, y)
      ensures exists c :: c in t.seen[n] && Covers(t, c, y)
    {
      AgainstAfterMerge(o, s.root, a, b, n, y);
      assert forall m :: m in s.removed[..i + 1] ==> m in s.removed;
      var c :| c in s.seen[n] && Covers(s, c, y);
      assert Covers(t, c, y);
    }
  }

  lemma JoinStack(o: Graph, k: nat, s: State, t: State, a: Node, b: Node)
    requires StackOk(o, k, s) && a !in s.removed && b !in s.removed
    requires t.removed == s.removed && t.seen == s.seen && t.low == s.low && t.root == Rerooted(s.root, a, b)
    ensures StackOk(o, k, t)
  {
    forall i | 0 <= i < |t.removed|
      ensures SeenCovers(o, t, i)
    {
      assert SeenCovers(o, s, i);
      CoverAfterJoin(o, s, t, a, b, i);
    }
  }

  lemma JoinPeaceful(o: Graph, k: nat, s: State, a: Node, b: Node)
    requires Inv(o, k, s) && Mergeable(s.g, a, b)
    ensures Peaceful(o, Rerooted(s.root, a, b))
  {
    var r := Rerooted(s.root, a, b);
    forall x, y | x in r && y in r && Conf(o, x, y)
      ensures r[x] != r[y]
    {
      assert s.root[x] != s.root[y] && Conf(o, y, x);
      NoMembersConflict(o, k, s, a, b, x, y);
      NoMembersConflict(o, k, s, a, b, y, x);
    }
  }

  lemma NoMembersConflict(o: Graph, k: nat, s: State, a: Node, b: Node, x: Node, y: Node)
    requires Inv(o, k, s) && Mergeable(s.g, a, b)
    ensures !MembersConflict(o, s.root, a, b, x, y)
  {
    assert Conf(s.g, a, b) <==> GroupsConflict(o, s.root, a, b);
  }

  lemma JoinGroups(o: Graph, s: State, t: State, a: Node, b: Node)
    requires GroupsOk(o, s) && Mergeable(s.g, a, b)
    requires t.g == Merged(s.g, a, b) && t.root == Rerooted(s.root, a, b) && t.removed == s.removed
    ensures GroupsOk(o, t)
  {
    QuotientMerged(o, s.g, s.root, a, b);
    WithoutElements(s.g.all, b);
    forall x | x in t.root
      ensures t.root[x] in t.g.all || t.root[x] in t.removed
    {
      assert s.root[x] in s.g.all || s.root[x] in s.removed;
    }
  }

  /** A merge keeps the invariant, whichever rule allowed it. */
  lemma JoinKeeps(o: Graph, k: nat, s: State, a: Node, b: Node)
    requires Inv(o, k, s) && Mergeable(s.g, a, b)
    requires Emptiable(s.g.conf, k) ==> Emptiable(Merged(s.g, a, b).conf, k)
    ensures a in s.rank && b in s.rank && Inv(o, k, Join(s, a, b))
  {
    assert a in s.root && b in s.root && s.root[a] == a && s.root[b] == b;
    assert a !in s.removed && b !in s.removed;
    var t := Join(s, a, b);
    assert WellFormed(t.g) by { MergedKeeps(s.g, a, b); }
    assert GroupsOk(o, t) by { JoinGroups(o, s, t, a, b); }
    assert StackOk(o, k, t) by { JoinStack(o, k, s, t, a, b); }
    assert Peaceful(o, t.root) by { JoinPeaceful(o, k, s, a, b); }
    assert TreesAreGroups(t.merged, t.rank, t.root) by { TreesMerge(s.merged, s.rank, s.root, a, b); }
  }

  // ---- dropping a preference ----

  lemma UnpreferKeeps(o: Graph, k: nat, s: State, a: Node, b: Node)
    requires Inv(o, k, s) && Pref(s.g, a, b)
    ensures Pref(s.g, b, a) && Inv(o, k, s.(g := PrefRemoved(s.g, a, b)))
  {
    PrefRemovedKeeps(s.g, a, b);
    QuotientUnpreferred(o, s.g, s.root, a, b);
    var t := s.(g := PrefRemoved(s.g, a, b));
    forall i | 0 <= i < |t.removed|
      ensures SeenCovers(o, t, i)
    {
      assert SeenCovers(o, s, i);
      CoverStays(o, s, t, i);
    }
  }

  // ---- with the optimistic pushes ----

  /** The state invariant; every pushed node was simplified or pushed
      optimistically; and a graph that low-degree deletions can empty never sees
      an optimistic push. */
  ghost predicate Tracked(o: Graph, k: nat, s: State, optimistic: set<Node>) {
    && Inv(o, k, s)
    && (forall n :: n in s.removed && n.Var? ==> n in s.low || n in optimistic)
    && (Emptiable(o.conf, k) ==> optimistic == {})
  }

  lemma TrackPush(o: Graph, k: nat, s: State, optimistic: set<Node>, n: Node, simplified: bool)
    requires Tracked(o, k, s, optimistic) && n in s.g.all
    requires simplified ==> n.Var? && |s.g.conf[n]| < k
    requires !simplified && n.Var? ==> !Emptiable(o.conf, k)
    ensures Tracked(o, k, Push(s, n, simplified), if !simplified && n.Var? then optimistic + {n} else optimistic)
  {
    PushKeeps(o, k, s, n, simplified);
  }

  lemma TrackJoin(o: Graph, k: nat, s: State, optimistic: set<Node>, a: Node, b: Node)
    requires Tracked(o, k, s, optimistic) && Mergeable(s.g, a, b)
    requires Emptiable(s.g.conf, k) ==> Emptiable(Merged(s.g, a, b).conf, k)
    ensures a in s.rank && b in s.rank && Tracked(o, k, Join(s, a, b), optimistic)
  {
    JoinKeeps(o, k, s, a, b);
  }

  lemma TrackUnprefer(o: Graph, k: nat, s: State, optimistic: set<Node>, a: Node, b: Node)
    requires Tracked(o, k, s, optimistic) && Pref(s.g, a, b)
    ensures Pref(s.g, b, a) && Tracked(o, k, s.(g := PrefRemoved(s.g, a, b)), optimistic)
  {
    UnpreferKeeps(o, k, s, a, b);
  }

  /** When no remaining node has low degree the original graph was not emptiable. */
  lemma StuckMeansHard(o: Graph, k: nat, s: State, optimistic: set<Node>, n: Node)
    requires Tracked(o, k, s, optimistic) && n in s.g.nodes
    requires forall v :: v in s.g.nodes ==> v in s.g.conf && k <= |s.g.conf[v]|
    ensures !Emptiable(o.conf, k)
  {
    if Emptiable(o.conf, k) {
      EmptiableHasLow(s.g.conf, k, n);
    }
  }
}
