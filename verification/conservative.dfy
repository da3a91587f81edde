/** Conservative coalescing: a merge made by either rule keeps a graph reducible
    to its dummy nodes by deleting real nodes of degree below `k`. */
module Conservative {
  import opened Graphs

  type Rows = map<Node, set<Node>>

  function Deleted(c: Rows, n: Node): Rows {
    map v | v in c && v != n :: c[v] - {n}
  }

  /** Deleting the nodes of `order` one by one, each real and of degree below `k`
      when its turn comes, leaves no real node. */
  ghost predicate Empties(c: Rows, order: seq<Node>, k: nat) {
    if order == [] then forall v :: v in c ==> v.Spot?
    else order[0] in c && order[0].Var? && |c[order[0]]| < k && Empties(Deleted(c, order[0]), order[1..], k)
  }

  ghost predicate Emptiable(c: Rows, k: nat) {
    exists order :: Empties(c, order, k)
  }

  // ---- subgraphs ----

  ghost predicate Subgraph(d: Rows, c: Rows) {
    && (forall v :: v in d ==> v in c && d[v] <= c[v])
    && (forall v :: v in d ==> d[v] <= d.Keys)
  }

  function Restrict(order: seq<Node>, keys: set<Node>): seq<Node> {
    if order == [] then []
    else if order[0] in keys then [order[0]] + Restrict(order[1..], keys - {order[0]})
    else Restrict(order[1..], keys)
  }

  lemma SizeLeq(a: set<Node>, b: set<Node>)
    requires a <= b
    ensures |a| <= |b|
  {
    assert b == a + (b - a);
    assert |b| == |a| + |b - a|;
  }

  lemma {:induction false} SubgraphEmpties(d: Rows, c: Rows, order: seq<Node>, k: nat)
    requires Subgraph(d, c) && Empties(c, order, k)
    ensures Empties(d, Restrict(order, d.Keys), k)
    decreases |order|
  {
    if order != [] {
      var n := order[0];
      if n in d {
        SizeLeq(d[n], c[n]);
        assert Deleted(d, n).Keys == d.Keys - {n};
        SubgraphEmpties(Deleted(d, n), Deleted(c, n), order[1..], k);
        var rest := Restrict(order[1..], d.Keys - {n});
        assert Restrict(order, d.Keys) == [n] + rest && ([n] + rest)[1..] == rest;
      } else {
        SubgraphEmpties(d, Deleted(c, n), order[1..], k);
      }
    }
  }

  lemma SubgraphEmptiable(d: Rows, c: Rows, k: nat)
    requires Subgraph(d, c) && Emptiable(c, k)
    ensures Emptiable(d, k)
  {
    var order :| Empties(c, order, k);
    SubgraphEmpties(d, c, order, k);
  }

  /** Deleting one more low-degree node first. */
  lemma DeleteFirst(c: Rows, n: Node, k: nat)
    requires n in c && n.Var? && |c[n]| < k && Emptiable(Deleted(c, n), k)
    ensures Emptiable(c, k)
  {
    var order :| Empties(Deleted(c, n), order, k);
    assert ([n] + order)[1..] == order;
    assert Empties(c, [n] + order, k);
  }

  function DeletedAll(c: Rows, ns: set<Node>): Rows {
    map v | v in c && v !in ns :: c[v] - ns
  }

  lemma DeletedAllPeel(c: Rows, ns: set<Node>, n: Node)
    requires n in ns
    ensures DeletedAll(Deleted(c, n), ns - {n}) == DeletedAll(c, ns)
  {
    forall v | v in c && v !in ns
      ensures c[v] - {n} - (ns - {n}) == c[v] - ns
    {
    }
  }

  lemma {:induction false} DeleteAllFirst(c: Rows, ns: set<Node>, k: nat)
    requires forall n :: n in ns ==> n in c && n.Var? && |c[n]| < k
    requires Emptiable(DeletedAll(c, ns), k)
    ensures Emptiable(c, k)
    decreases |ns|
  {
    if ns == {} {
      assert forall v :: v in c ==> c[v] - ns == c[v];
      assert DeletedAll(c, ns) == c;
    } else {
      var n :| n in ns;
      var rest := ns - {n};
      forall m | m in rest
        ensures |Deleted(c, n)[m]| < k
      {
        SizeLeq(Deleted(c, n)[m], c[m]);
      }
      DeletedAllPeel(c, ns, n);
      DeleteAllFirst(Deleted(c, n), rest, k);
      DeleteFirst(c, n, k);
    }
  }

  /** While a real node is left, some real node has degree below `k`. */
  lemma EmptiableHasLow(c: Rows, k: nat, n: Node)
    requires Emptiable(c, k) && n in c && n.Var?
    ensures exists m :: m in c && m.Var? && |c[m]| < k
  {
    var order :| Empties(c, order, k);
    assert order != [];
  }

  // ---- removal and the two merging rules ----

  lemma PoppedEmptiable(g: Graph, n: Node, k: nat)
    requires WellFormed(g) && n in g.all && Emptiable(g.conf, k)
    ensures Emptiable(Popped(g, n).conf, k)
  {
    var d := Popped(g, n).conf;
    forall v | v in d
      ensures d[v] <= d.Keys
    {
      RowsClosed(g, v);
    }
    SubgraphEmptiable(d, g.conf, k);
  }

  lemma RowsClosed(g: Graph, v: Node)
    requires WellFormed(g) && v in g.conf
    ensures g.conf[v] <= g.conf.Keys
  {
    forall w | w in g.conf[v]
      ensures w in g.conf
    {
      assert Conf(g, v, w);
    }
  }

  /** The combined-degree rule: two real nodes with fewer than `k` conflicts together. */
  lemma BriggsIsSafe(g: Graph, a: Node, b: Node, k: nat)
    requires Mergeable(g, a, b) && a.Var? && |g.conf[a] + g.conf[b]| < k
    requires Emptiable(g.conf, k)
    ensures Emptiable(Merged(g, a, b).conf, k)
  {
    var c := Merged(g, a, b).conf;
    var d := Deleted(c, a);
    forall v | v in d
      ensures d[v] <= g.conf[v] && d[v] <= d.Keys
    {
      RowsClosed(g, v);
      assert Conf(g, b, v) <==> Conf(g, v, b);
      assert !Conf(g, a, v) && !Conf(g, b, v) ==> b !in g.conf[v];
      assert Conf(g, a, v) <==> Conf(g, v, a);
    }
    SubgraphEmptiable(d, g.conf, k);
    DeleteFirst(c, a, k);
  }

  /** The precoloured-spot rule: every conflict of `a` already conflicts with the
      spot `s` or has degree below `k`. */
  ghost predicate GeorgeTest(g: Graph, a: Node, s: Node, k: nat)
    requires a in g.conf && g.conf[a] <= g.conf.Keys
  {
    forall t :: t in g.conf[a] ==> s in g.conf[t] || |g.conf[t]| < k
  }

  /** A low-degree neighbour of `a` trades `a` for `s`: its degree stays below `k`. */
  lemma TradeKeepsDegree(row: set<Node>, a: Node, s: Node)
    requires a in row && s !in row
    ensures |row - {a} + {s}| == |row|
  {
  }

  lemma GeorgeIsSafe(g: Graph, a: Node, s: Node, k: nat)
    requires Mergeable(g, s, a) && s.Spot? && g.conf[a] <= g.conf.Keys && GeorgeTest(g, a, s, k)
    requires Emptiable(g.conf, k)
    ensures Emptiable(Merged(g, s, a).conf, k)
  {
    var c := Merged(g, s, a).conf;
    var low := set t | t in g.conf[a] && t.Var? && s !in g.conf[t];
    forall t | t in low
      ensures t in c && |c[t]| < k
    {
      assert Conf(g, a, t) && Conf(g, t, a);
      assert c[t] == g.conf[t] - {a} + {s};
      TradeKeepsDegree(g.conf[t], a, s);
    }
    var d := DeletedAll(c, low);
    forall v | v in d
      ensures d[v] <= g.conf[v] && d[v] <= d.Keys
    {
      GeorgeRow(g, a, s, low, v);
    }
    SubgraphEmptiable(d, g.conf, k);
    DeleteAllFirst(c, low, k);
  }

  /** Once the traded neighbours are gone, no row has grown. */
  lemma GeorgeRow(g: Graph, a: Node, s: Node, low: set<Node>, v: Node)
    requires Mergeable(g, s, a) && s.Spot? && g.conf[a] <= g.conf.Keys
    requires low == set t | t in g.conf[a] && t.Var? && s !in g.conf[t]
    requires v in DeletedAll(Merged(g, s, a).conf, low)
    ensures var d := DeletedAll(Merged(g, s, a).conf, low); d[v] <= g.conf[v] && d[v] <= d.Keys
  {
    var c := Merged(g, s, a).conf;
    var d := DeletedAll(c, low);
    forall w | w in d[v]
      ensures w in g.conf[v] && w in d
    {
      assert Conf(Merged(g, s, a), v, w);
      MergedConf(g, s, a, v, w);
      assert Conf(g, v, w) ==> Conf(g, w, v);
      assert Conf(g, a, w) ==> Conf(g, w, a);
      assert Conf(g, a, v) <==> Conf(g, v, a);
      if v == s && Conf(g, a, w) {
        assert w.Spot? && w != s ==> Conf(g, w, s);
        assert Conf(g, w, s) ==> Conf(g, s, w);
        assert Conf(g, w, s);
      }
      if w == s && Conf(g, v, a) {
        assert v.Spot? && v != s ==> Conf(g, v, s);
        assert Conf(g, v, s);
      }
    }
  }
}
