/** The table of merges: each node maps to the nodes merged into it.  The table
    is a forest whose trees are exactly the merged groups. */
module MergeForest {
  import opened Graphs

  type Table = map<Node, seq<Node>>

  function Kids(merged: Table, n: Node): seq<Node> {
    if n in merged then merged[n] else []
  }

  predicate Kid(merged: Table, n: Node, s: Node) {
    s in Kids(merged, n)
  }

  /** `rank` falls from a node to the nodes merged into it: the table is acyclic. */
  ghost predicate Forest(merged: Table, rank: map<Node, nat>) {
    forall n, s {:trigger Kid(merged, n, s)} :: Kid(merged, n, s) ==> n in rank && s in rank && rank[s] < rank[n]
  }

  ghost function Tree(merged: Table, rank: map<Node, nat>, n: Node): (t: set<Node>)
    requires Forest(merged, rank) && n in rank
    ensures n in t
    decreases rank[n]
  {
    {n} + (set s, x | s in Kids(merged, n) && Kid(merged, n, s) && x in Tree(merged, rank, s) :: x)
  }

  lemma {:induction false} TreeRanks(merged: Table, rank: map<Node, nat>, n: Node, x: Node)
    requires Forest(merged, rank) && n in rank && x in Tree(merged, rank, n)
    ensures x in rank && (x == n || rank[x] < rank[n])
    decreases rank[n]
  {
    if x != n {
      var s :| s in Kids(merged, n) && Kid(merged, n, s) && x in Tree(merged, rank, s);
      TreeRanks(merged, rank, s, x);
    }
  }

  function Adopt(merged: Table, a: Node, b: Node): Table {
    merged[a := Kids(merged, a) + [b]]
  }

  function Raise(rank: map<Node, nat>, a: Node, b: Node): map<Node, nat>
    requires a in rank && b in rank
  {
    rank[a := if rank[a] > rank[b] then rank[a] else rank[b] + 1]
  }

  /** `a` was merged into nothing, so its rank is free to rise. */
  ghost predicate TopLevel(merged: Table, a: Node) {
    forall n :: !Kid(merged, n, a)
  }

  lemma AdoptKeepsForest(merged: Table, rank: map<Node, nat>, a: Node, b: Node)
    requires Forest(merged, rank) && a in rank && b in rank && a != b && TopLevel(merged, a)
    ensures Forest(Adopt(merged, a, b), Raise(rank, a, b))
  {
    var m, r := Adopt(merged, a, b), Raise(rank, a, b);
    forall n, s | Kid(m, n, s)
      ensures n in r && s in r && r[s] < r[n]
    {
      assert !Kid(merged, n, a);
      assert n != a ==> Kids(m, n) == Kids(merged, n);
      if n != a || s != b {
        assert Kid(merged, n, s);
      }
    }
  }

  lemma {:induction false} OtherTreesStay(merged: Table, rank: map<Node, nat>, a: Node, b: Node, n: Node)
    requires Forest(merged, rank) && a in rank && b in rank && a != b && TopLevel(merged, a)
    requires n in rank && a !in Tree(merged, rank, n)
    ensures Forest(Adopt(merged, a, b), Raise(rank, a, b))
    ensures Tree(Adopt(merged, a, b), Raise(rank, a, b), n) == Tree(merged, rank, n)
    decreases rank[n]
  {
    AdoptKeepsForest(merged, rank, a, b);
    var m, r := Adopt(merged, a, b), Raise(rank, a, b);
    assert Kids(m, n) == Kids(merged, n);
    forall s | Kid(merged, n, s)
      ensures Tree(m, r, s) == Tree(merged, rank, s)
    {
      OtherTreesStay(merged, rank, a, b, s);
    }
  }

  lemma AdoptedTree(merged: Table, rank: map<Node, nat>, a: Node, b: Node)
    requires Forest(merged, rank) && a in rank && b in rank && a != b && TopLevel(merged, a)
    requires a !in Tree(merged, rank, b)
    ensures Forest(Adopt(merged, a, b), Raise(rank, a, b))
    ensures Tree(Adopt(merged, a, b), Raise(rank, a, b), a) == Tree(merged, rank, a) + Tree(merged, rank, b)
  {
    AdoptKeepsForest(merged, rank, a, b);
    var m, r := Adopt(merged, a, b), Raise(rank, a, b);
    OtherTreesStay(merged, rank, a, b, b);
    forall s | Kid(merged, a, s)
      ensures Tree(m, r, s) == Tree(merged, rank, s)
    {
      if a in Tree(merged, rank, s) {
        TreeRanks(merged, rank, s, a);
      }
      OtherTreesStay(merged, rank, a, b, s);
    }
    assert Kids(m, a) == Kids(merged, a) + [b];
    forall x
      ensures x in Tree(m, r, a) <==> x in Tree(merged, rank, a) + Tree(merged, rank, b)
    {
      if x in Tree(m, r, a) && x != a {
        var s :| s in Kids(m, a) && Kid(m, a, s) && x in Tree(m, r, s);
        assert s == b || Kid(merged, a, s);
      }
      if x in Tree(merged, rank, a) && x != a {
        var s :| s in Kids(merged, a) && Kid(merged, a, s) && x in Tree(merged, rank, s);
        assert Kid(m, a, s) && x in Tree(m, r, s);
      }
      if x in Tree(merged, rank, b) {
        assert Kid(m, a, b) && x in Tree(m, r, b);
      }
    }
  }

  // ---- groups ----

  function Group(root: Roots, n: Node): set<Node> {
    set x | x in root && root[x] == n
  }

  /** The trees under the top-level nodes are the groups. */
  ghost predicate TreesAreGroups(merged: Table, rank: map<Node, nat>, root: Roots) {
    && Forest(merged, rank) && rank.Keys == root.Keys
    && (forall n, s :: Kid(merged, n, s) ==> s in root && root[s] != s)
    && (forall n {:trigger Group(root, n)} :: n in root && root[n] == n ==> Tree(merged, rank, n) == Group(root, n))
  }

  lemma TreesStart(root: Roots)
    requires forall x :: x in root ==> root[x] == x
    ensures TreesAreGroups(map[], map x | x in root :: 0, root)
  {
    var rank: map<Node, nat> := map x | x in root :: 0;
    forall n | n in root
      ensures Tree(map[], rank, n) == Group(root, n)
    {
      assert Kids(map[], n) == [];
      assert Tree(map[], rank, n) == {n};
    }
  }

  lemma TreesMerge(merged: Table, rank: map<Node, nat>, root: Roots, a: Node, b: Node)
    requires TreesAreGroups(merged, rank, root)
    requires a in root && b in root && root[a] == a && root[b] == b && a != b
    ensures TreesAreGroups(Adopt(merged, a, b), Raise(rank, a, b), Rerooted(root, a, b))
  {
    var m, k, r := Adopt(merged, a, b), Raise(rank, a, b), Rerooted(root, a, b);
    assert TopLevel(merged, a);
    AdoptKeepsForest(merged, rank, a, b);
    forall n, s | Kid(m, n, s)
      ensures s in r && r[s] != s
    {
      assert n != a ==> Kids(m, n) == Kids(merged, n);
      assert s == b || Kid(merged, n, s);
    }
    forall n | n in r && r[n] == n
      ensures Tree(m, k, n) == Group(r, n)
    {
      TreeAfterMerge(merged, rank, root, a, b, n);
    }
  }

  lemma TreeAfterMerge(merged: Table, rank: map<Node, nat>, root: Roots, a: Node, b: Node, n: Node)
    requires TreesAreGroups(merged, rank, root)
    requires a in root && b in root && root[a] == a && root[b] == b && a != b
    requires n in root && Rerooted(root, a, b)[n] == n
    requires TopLevel(merged, a) && Forest(Adopt(merged, a, b), Raise(rank, a, b))
    ensures Tree(Adopt(merged, a, b), Raise(rank, a, b), n) == Group(Rerooted(root, a, b), n)
  {
    var r := Rerooted(root, a, b);
    assert Tree(merged, rank, b) == Group(root, b);
    assert Tree(merged, rank, a) == Group(root, a);
    if n == a {
      AdoptedTree(merged, rank, a, b);
      assert Group(r, a) == Group(root, a) + Group(root, b);
    } else {
      assert root[n] == n;
      assert Tree(merged, rank, n) == Group(root, n);
      OtherTreesStay(merged, rank, a, b, n);
      assert Group(r, n) == Group(root, n);
    }
  }

  // ---- walking the forest ----

  /** `x` lies under one of the first `i` nodes merged into `n`. */
  ghost predicate Under(merged: Table, rank: map<Node, nat>, n: Node, i: nat, x: Node)
    requires Forest(merged, rank) && i <= |Kids(merged, n)|
  {
    exists j :: 0 <= j < i && Kid(merged, n, Kids(merged, n)[j]) && x in Tree(merged, rank, Kids(merged, n)[j])
  }

  lemma TreeIsUnder(merged: Table, rank: map<Node, nat>, n: Node, x: Node)
    requires Forest(merged, rank) && n in rank
    ensures x in Tree(merged, rank, n) <==> x == n || Under(merged, rank, n, |Kids(merged, n)|, x)
  {
    if x in Tree(merged, rank, n) && x != n {
      var s :| s in Kids(merged, n) && Kid(merged, n, s) && x in Tree(merged, rank, s);
      var j :| 0 <= j < |Kids(merged, n)| && Kids(merged, n)[j] == s;
    }
  }

  lemma UnderNext(merged: Table, rank: map<Node, nat>, n: Node, i: nat, x: Node)
    requires Forest(merged, rank) && i < |Kids(merged, n)| && Kids(merged, n)[i] in rank
    ensures Under(merged, rank, n, i + 1, x) <==> Under(merged, rank, n, i, x) || x in Tree(merged, rank, Kids(merged, n)[i])
  {
  }

  /** Every node merged into `n`, directly or not, and `n` itself. */
  method GetMerged(merged: Table, ghost rank: map<Node, nat>, n: Node) returns (r: set<Node>)
    requires Forest(merged, rank) && n in rank
    ensures r == Tree(merged, rank, n)
    decreases rank[n]
  {
    r := {n};
    var kids := Kids(merged, n);
    for i := 0 to |kids|
      invariant forall x :: x in r <==> x == n || Under(merged, rank, n, i, x)
    {
      assert Kid(merged, n, kids[i]);
      var sub := GetMerged(merged, rank, kids[i]);
      forall x { UnderNext(merged, rank, n, i, x); }
      r := r + sub;
    }
    forall x { TreeIsUnder(merged, rank, n, x); }
  }

  ghost predicate TreeConflict(g: Graph, merged: Table, rank: map<Node, nat>, n: Node, x: Node, y: Node)
    requires Forest(merged, rank) && n in rank
  {
    x in Tree(merged, rank, n) && Conf(g, x, y)
  }

  /** Some member of the first `i` subtrees of `n`, or `n` itself, conflicts with `y`. */
  ghost predicate ConflictsSoFar(g: Graph, merged: Table, rank: map<Node, nat>, n: Node, i: nat, y: Node)
    requires Forest(merged, rank) && i <= |Kids(merged, n)|
  {
    exists x :: (x == n || Under(merged, rank, n, i, x)) && Conf(g, x, y)
  }

  lemma ConflictsNext(g: Graph, merged: Table, rank: map<Node, nat>, n: Node, i: nat, y: Node)
    requires Forest(merged, rank) && i < |Kids(merged, n)| && Kids(merged, n)[i] in rank
    ensures ConflictsSoFar(g, merged, rank, n, i + 1, y) <==>
            ConflictsSoFar(g, merged, rank, n, i, y) || exists x :: TreeConflict(g, merged, rank, Kids(merged, n)[i], x, y)
  {
    forall x { UnderNext(merged, rank, n, i, x); }
    if ConflictsSoFar(g, merged, rank, n, i + 1, y) {
      var x :| (x == n || Under(merged, rank, n, i + 1, x)) && Conf(g, x, y);
      assert (x == n || Under(merged, rank, n, i, x)) || TreeConflict(g, merged, rank, Kids(merged, n)[i], x, y);
    }
    if x :| TreeConflict(g, merged, rank, Kids(merged, n)[i], x, y) {
      assert Under(merged, rank, n, i + 1, x) && Conf(g, x, y);
    }
  }

  lemma ConflictsAll(g: Graph, merged: Table, rank: map<Node, nat>, n: Node, y: Node)
    requires Forest(merged, rank) && n in rank
    ensures ConflictsSoFar(g, merged, rank, n, |Kids(merged, n)|, y) <==> exists x :: TreeConflict(g, merged, rank, n, x, y)
  {
    if ConflictsSoFar(g, merged, rank, n, |Kids(merged, n)|, y) {
      var x :| (x == n || Under(merged, rank, n, |Kids(merged, n)|, x)) && Conf(g, x, y);
      TreeIsUnder(merged, rank, n, x);
      assert TreeConflict(g, merged, rank, n, x, y);
    }
    if x :| TreeConflict(g, merged, rank, n, x, y) {
      TreeIsUnder(merged, rank, n, x);
      assert Conf(g, x, y);
    }
  }

  /** Every conflict of `n` or of a node merged into it. */
  method GetConflicts(g: Graph, merged: Table, ghost rank: map<Node, nat>, n: Node) returns (r: set<Node>)
    requires Forest(merged, rank) && n in rank && rank.Keys <= g.conf.Keys
    ensures forall y :: y in r <==> exists x :: TreeConflict(g, merged, rank, n, x, y)
    decreases rank[n]
  {
    r := g.conf[n];
    var kids := Kids(merged, n);
    forall y
      ensures y in r <==> ConflictsSoFar(g, merged, rank, n, 0, y)
    {
      assert y in r <==> Conf(g, n, y);
    }
    for i := 0 to |kids|
      invariant forall y :: y in r <==> ConflictsSoFar(g, merged, rank, n, i, y)
    {
      assert Kid(merged, n, kids[i]);
      var sub := GetConflicts(g, merged, rank, kids[i]);
      forall y { ConflictsNext(g, merged, rank, n, i, y); }
      r := r + sub;
    }
    forall y { ConflictsAll(g, merged, rank, n, y); }
  }
}
