/** The reduction loop of the x86-64 allocator: simplify, coalesce, freeze, and
    optimistic spill, until only dummy nodes are left. */
module Reductions {
  import opened Graphs
  import opened MergeForest
  import opened Conservative
  import opened ColouringState
  import opened NodeGraphs
  import opened IL

  /** How the freeze step ranks an edge: combined degree, then the smaller, then the larger. */
  predicate KeyLess(a: (nat, nat, nat), b: (nat, nat, nat)) {
    a.0 < b.0 || (a.0 == b.0 && (a.1 < b.1 || (a.1 == b.1 && a.2 < b.2)))
  }

  function EdgeKey(p: nat, q: nat): (nat, nat, nat) {
    (p + q, if p < q then p else q, if p < q then q else p)
  }

  function EdgeRank(g: Graph, a: Node, b: Node): (nat, nat, nat)
    requires a in g.conf && b in g.conf
  {
    EdgeKey(|g.conf[a]|, |g.conf[b]|)
  }

  /** Directed preference edges still in the graph. */
  ghost function PrefEdges(g: Graph): set<(Node, Node)> {
    set a, b | a in g.pref && b in g.pref[a] :: (a, b)
  }

  lemma UnpreferShrinks(g: Graph, a: Node, b: Node)
    requires PrefOk(g) && Pref(g, a, b)
    ensures Pref(g, b, a) && PrefEdges(PrefRemoved(g, a, b)) < PrefEdges(g)
  {
    assert Pref(g, b, a);
    var h := PrefRemoved(g, a, b);
    forall x, y | (x, y) in PrefEdges(h)
      ensures (x, y) in PrefEdges(g)
    {
      PrefRemovedPref(g, a, b, x, y);
      assert Pref(h, x, y);
    }
    PrefRemovedPref(g, a, b, a, b);
    assert (a, b) in PrefEdges(g);
    assert !Pref(h, a, b);
  }

  /** Node `v` may be simplified away: no preferences, low degree. */
  ghost predicate Simplifiable(g: Graph, k: nat, v: Node) {
    v in g.nodes && v in g.pref && v in g.conf && g.pref[v] == [] && |g.conf[v]| < k
  }

  /** `v1` may be merged with its preference neighbour `v2`: they do not conflict, and
      the precoloured-spot rule or the combined-degree rule allows it. */
  ghost predicate Joinable(g: Graph, k: nat, v1: Node, v2: Node) {
    && Pref(g, v1, v2) && !Conf(g, v1, v2) && v1 in g.conf && v2 in g.conf
    && (if v2.Spot? then g.conf[v1] <= g.conf.Keys && GeorgeTest(g, v1, v2, k) else |g.conf[v1] + g.conf[v2]| < k)
  }

  /** `v2` is the first of `v1`'s preference neighbours that it may be merged with. */
  ghost predicate FirstJoinable(g: Graph, k: nat, v1: Node, v2: Node) {
    v1 in g.pref && exists i :: 0 <= i < |g.pref[v1]| && JoinableAt(g, k, v1, i) && g.pref[v1][i] == v2
  }

  ghost predicate JoinableAt(g: Graph, k: nat, v1: Node, i: nat)
    requires v1 in g.pref && i < |g.pref[v1]|
  {
    Joinable(g, k, v1, g.pref[v1][i]) && forall j :: 0 <= j < i ==> !Joinable(g, k, v1, g.pref[v1][j])
  }

  /** The node kept and the node merged into it. */
  function Joined(v1: Node, v2: Node): (Node, Node) { if v2.Spot? then (v2, v1) else (v1, v2) }

  ghost predicate NothingJoinable(g: Graph, k: nat, v1: Node) {
    forall v2 {:trigger Joinable(g, k, v1, v2)} :: !Joinable(g, k, v1, v2)
  }

  /** Size of the union, by counting the elements of `b` that are not in `a`. */
  method UnionSize(a: set<Node>, b: set<Node>) returns (n: nat)
    ensures n == |a + b|
  {
    n := |a|;
    var todo := b;
    while todo != {}
      invariant todo <= b && n == |a + (b - todo)|
    {
      var x :| x in todo;
      UnionGrows(a, b, todo, x);
      todo := todo - {x};
      if x !in a {
        n := n + 1;
      }
    }
    assert b - todo == b;
  }

  lemma UnionGrows(a: set<Node>, b: set<Node>, todo: set<Node>, x: Node)
    requires todo <= b && x in todo
    ensures |a + (b - (todo - {x}))| == |a + (b - todo)| + if x in a then 0 else 1
  {
    var was := a + (b - todo);
    var now := a + (b - (todo - {x}));
    assert now == was + {x};
    if x in a {
      assert now == was;
    }
  }

  /** The precoloured-spot rule: stop at the first conflict that fails it. */
  method GeorgeHolds(g: NodeGraph, a: Node, s: Node, k: nat) returns (ok: bool)
    requires g.Valid() && a in g.all
    ensures g.conf[a] <= g.conf.Keys
    ensures ok <==> GeorgeTest(g.View(), a, s, k)
  {
    RowsClosed(g.View(), a);
    var todo := g.conf[a];
    while todo != {}
      invariant todo <= g.conf[a]
      invariant forall t :: t in g.conf[a] - todo ==> s in g.conf[t] || |g.conf[t]| < k
    {
      var t :| t in todo;
      todo := todo - {t};
      if s in g.conf[t] {
      } else if |g.conf[t]| < k {
      } else {
        return false;
      }
    }
    return true;
  }

  /** Remove and return the first listed node of low degree. */
  method SimplifyOnce(nodes: seq<Node>, g: NodeGraph, k: nat) returns (rem: Option<Node>)
    requires g.Valid() && forall v :: v in nodes ==> v in g.nodes
    modifies g
    ensures g.Valid()
    ensures match rem
            case None => g.View() == old(g.View()) && forall v :: v in nodes ==> k <= |g.conf[v]|
            case Some(v) =>
              && (exists i :: 0 <= i < |nodes| && nodes[i] == v && forall j :: 0 <= j < i ==> k <= |old(g.conf)[nodes[j]]|)
              && |old(g.conf)[v]| < k && g.View() == Popped(old(g.View()), v)
  {
    for i := 0 to |nodes|
      invariant g.View() == old(g.View())
      invariant forall j :: 0 <= j < i ==> k <= |g.conf[nodes[j]]|
    {
      var v := nodes[i];
      if |g.conf[v]| < k {
        g.Pop(v);
        return Some(v);
      }
    }
    return None;
  }

  /** Try to merge `v1` with one of its preference neighbours; returns the node
      kept and the node merged into it. */
  method CoalesceNode(g: NodeGraph, v1: Node, k: nat) returns (merge: Option<(Node, Node)>)
    requires g.Valid() && v1 in g.nodes
    modifies g
    ensures g.Valid()
    ensures match merge
            case None => g.View() == old(g.View()) && NothingJoinable(g.View(), k, v1)
            case Some((a, b)) =>
              && (exists v2 :: FirstJoinable(old(g.View()), k, v1, v2) && (a, b) == Joined(v1, v2))
              && Mergeable(old(g.View()), a, b)
              && g.View() == Merged(old(g.View()), a, b)
              && (Emptiable(old(g.View()).conf, k) ==> Emptiable(g.View().conf, k))
  {
    ghost var g0 := g.View();
    var prefs := g.pref[v1];
    for i := 0 to |prefs|
      invariant g.View() == g0
      invariant forall j :: 0 <= j < i ==> !Joinable(g0, k, v1, prefs[j])
    {
      var v2 := prefs[i];
      assert Pref(g0, v1, v2) && Pref(g0, v2, v1) && v1 != v2;
      if v2 in g.conf[v1] {
      } else if v2.Spot? {
        var ok := GeorgeHolds(g, v1, v2, k);
        if ok {
          assert !Conf(g0, v2, v1) by { assert !Conf(g0, v1, v2); assert Conf(g0, v2, v1) ==> Conf(g0, v1, v2); }
          if Emptiable(g0.conf, k) {
            GeorgeIsSafe(g0, v1, v2, k);
          }
          assert JoinableAt(g0, k, v1, i);
          assert FirstJoinable(g0, k, v1, v2) && Joined(v1, v2) == (v2, v1);
          g.Merge(v2, v1);
          return Some((v2, v1));
        }
      } else {
        var total := UnionSize(g.conf[v1], g.conf[v2]);
        if total < k {
          if Emptiable(g0.conf, k) {
            BriggsIsSafe(g0, v1, v2, k);
          }
          assert JoinableAt(g0, k, v1, i);
          assert FirstJoinable(g0, k, v1, v2) && Joined(v1, v2) == (v1, v2);
          g.Merge(v1, v2);
          return Some((v1, v2));
        }
      }
    }
    forall v2
      ensures !Joinable(g0, k, v1, v2)
    {
      if Pref(g0, v1, v2) {
        var j :| 0 <= j < |prefs| && prefs[j] == v2;
        assert !Joinable(g0, k, v1, prefs[j]);
      }
    }
    return None;
  }

  // ---- freezing ----

  /** The directed preference edges of `a`, and of the first `n` nodes, in the order the
      scan meets them. */
  function EdgesAt(g: Graph, a: Node, n: nat): seq<(Node, Node)>
    requires a in g.pref && n <= |g.pref[a]|
  {
    seq(n, i requires 0 <= i < n => (a, g.pref[a][i]))
  }

  function EdgesUpTo(g: Graph, n: nat): seq<(Node, Node)>
    requires n <= |g.all| && forall a :: a in g.all ==> a in g.pref
  {
    if n == 0 then [] else EdgesUpTo(g, n - 1) + (assert g.all[n - 1] in g.all; EdgesAt(g, g.all[n - 1], |g.pref[g.all[n - 1]]|))
  }

  ghost predicate InConf(g: Graph, met: seq<(Node, Node)>) {
    forall k :: 0 <= k < |met| ==> met[k].0 in g.conf && met[k].1 in g.conf
  }

  /** `e` is the first edge of lowest rank in `met`. */
  ghost predicate FirstLowest(g: Graph, e: (Node, Node), met: seq<(Node, Node)>)
    requires InConf(g, met)
  {
    exists k :: 0 <= k < |met| && met[k] == e && LowestAt(g, met, k)
  }

  ghost predicate LowestAt(g: Graph, met: seq<(Node, Node)>, k: nat)
    requires InConf(g, met) && k < |met|
  {
    && (forall j :: 0 <= j < k ==> KeyLess(EdgeRank(g, met[k].0, met[k].1), EdgeRank(g, met[j].0, met[j].1)))
    && (forall j :: k <= j < |met| ==> !KeyLess(EdgeRank(g, met[j].0, met[j].1), EdgeRank(g, met[k].0, met[k].1)))
  }

  ghost predicate BestOf(g: Graph, best: Option<(Node, Node)>, met: seq<(Node, Node)>) {
    InConf(g, met) && if best.None? then met == [] else FirstLowest(g, best.value, met)
  }

  /** The first edge of lowest rank in the graph, in scan order. */
  ghost predicate LowestEdge(g: Graph, a: Node, b: Node) {
    && Pref(g, a, b) && Pref(g, b, a) && a in g.conf && b in g.conf
    && (forall v :: v in g.all ==> v in g.pref) && InConf(g, EdgesUpTo(g, |g.all|)) && FirstLowest(g, (a, b), EdgesUpTo(g, |g.all|))
  }

  lemma BestGrows(g: Graph, best: Option<(Node, Node)>, met: seq<(Node, Node)>, e: (Node, Node))
    requires BestOf(g, best, met) && e.0 in g.conf && e.1 in g.conf
    ensures var better := best.None? || KeyLess(EdgeRank(g, e.0, e.1), EdgeRank(g, best.value.0, best.value.1));
            BestOf(g, if better then Some(e) else best, met + [e])
  {
    var all := met + [e];
    if best.None? {
      assert LowestAt(g, all, 0);
    } else {
      var k :| 0 <= k < |met| && met[k] == best.value && LowestAt(g, met, k);
      if KeyLess(EdgeRank(g, e.0, e.1), EdgeRank(g, met[k].0, met[k].1)) {
        forall j | 0 <= j < |met|
          ensures KeyLess(EdgeRank(g, e.0, e.1), EdgeRank(g, met[j].0, met[j].1))
        {
        }
        assert LowestAt(g, all, |met|);
      } else {
        assert LowestAt(g, all, k);
      }
    }
  }

  /** Every preference edge is met. */
  lemma {:induction false} AllMet(g: Graph, n: nat, r: nat, j: nat)
    requires n <= |g.all| && (forall a :: a in g.all ==> a in g.pref) && r < n
    requires g.all[r] in g.all && j < |g.pref[g.all[r]]|
    ensures (g.all[r], g.pref[g.all[r]][j]) in EdgesUpTo(g, n)
  {
    if r < n - 1 {
      AllMet(g, n - 1, r, j);
    } else {
      var row := EdgesAt(g, g.all[r], |g.pref[g.all[r]]|);
      assert row[j] == (g.all[r], g.pref[g.all[r]][j]) && row[j] in row;
    }
  }

  lemma {:induction false} OnlyEdgesMet(g: Graph, n: nat)
    requires WellFormed(g) && n <= |g.all|
    ensures InConf(g, EdgesUpTo(g, n)) && forall e :: e in EdgesUpTo(g, n) ==> Pref(g, e.0, e.1)
  {
    if n > 0 {
      OnlyEdgesMet(g, n - 1);
      var a := g.all[n - 1];
      assert a in g.all;
      var row := EdgesAt(g, a, |g.pref[a]|);
      forall i | 0 <= i < |row|
        ensures Pref(g, row[i].0, row[i].1) && row[i].0 in g.conf && row[i].1 in g.conf
      {
        assert Pref(g, a, g.pref[a][i]) && Pref(g, g.pref[a][i], a);
      }
    }
  }

  /** Scan every preference edge for the first of lowest rank. */
  method FindLowest(g: Graph) returns (best: Option<(Node, Node)>)
    requires WellFormed(g)
    ensures match best
            case None => forall x, y :: !Pref(g, x, y)
            case Some((a, b)) => LowestEdge(g, a, b)
  {
    best := None;
    for i := 0 to |g.all|
      invariant BestOf(g, best, EdgesUpTo(g, i))
    {
      assert g.all[i] in g.all;
      best := ScanRow(g, g.all[i], best, EdgesUpTo(g, i));
    }
    OnlyEdgesMet(g, |g.all|);
    if best.None? {
      forall x, y
        ensures !Pref(g, x, y)
      {
        if Pref(g, x, y) {
          EdgeMet(g, x, y);
          assert false;
        }
      }
    } else {
      assert best.value in EdgesUpTo(g, |g.all|);
      assert Pref(g, best.value.0, best.value.1);
    }
  }

  lemma EdgeMet(g: Graph, x: Node, y: Node)
    requires WellFormed(g) && Pref(g, x, y)
    ensures (x, y) in EdgesUpTo(g, |g.all|)
  {
    var r :| 0 <= r < |g.all| && g.all[r] == x;
    var j :| 0 <= j < |g.pref[x]| && g.pref[x][j] == y;
    AllMet(g, |g.all|, r, j);
  }

  method ScanRow(g: Graph, na: Node, best0: Option<(Node, Node)>, ghost met0: seq<(Node, Node)>) returns (best: Option<(Node, Node)>)
    requires WellFormed(g) && na in g.all && BestOf(g, best0, met0)
    ensures BestOf(g, best, met0 + EdgesAt(g, na, |g.pref[na]|))
  {
    best := best0;
    assert met0 + EdgesAt(g, na, 0) == met0;
    for j := 0 to |g.pref[na]|
      invariant BestOf(g, best, met0 + EdgesAt(g, na, j))
    {
      var nb := g.pref[na][j];
      assert Pref(g, na, nb) && Pref(g, nb, na);
      BestGrows(g, best, met0 + EdgesAt(g, na, j), (na, nb));
      assert met0 + EdgesAt(g, na, j + 1) == (met0 + EdgesAt(g, na, j)) + [(na, nb)];
      if best.None? || KeyLess(EdgeRank(g, na, nb), EdgeRank(g, best.value.0, best.value.1)) {
        best := Some((na, nb));
      }
    }
  }

  /** Remove the preference edge of lowest rank, if there is any. */
  method Freeze(g: NodeGraph) returns (done: bool, ghost a: Node, ghost b: Node)
    requires g.Valid()
    modifies g
    ensures g.Valid()
    ensures !done ==> g.View() == old(g.View()) && forall x, y :: !Pref(g.View(), x, y)
    ensures done ==> LowestEdge(old(g.View()), a, b) && g.View() == PrefRemoved(old(g.View()), a, b)
  {
    var best := FindLowest(g.View());
    match best
    case None =>
      done, a, b := false, Var(0), Var(0);
    case Some((x, y)) =>
      done, a, b := true, x, y;
      g.RemovePref(x, y);
  }
}
