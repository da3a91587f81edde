/** The mutable conflict/preference graph of the x86-64 register allocator. */
module NodeGraphs {
  import opened Graphs

  class NodeGraph {
    var nodes: seq<Node>
    var all: seq<Node>
    var conf: map<Node, set<Node>>
    var pref: map<Node, seq<Node>>

    function View(): Graph
      reads this
    {
      Graph(nodes, all, conf, pref)
    }

    ghost predicate Valid()
      reads this
    {
      WellFormed(View())
    }

    /** A graph of real nodes without edges. */
    constructor (vars: seq<Node>)
      requires NoDup(vars) && forall n :: n in vars ==> n.Var?
      ensures Valid() && nodes == vars && all == vars
      ensures forall a, b :: !Conf(View(), a, b) && !Pref(View(), a, b)
    {
      nodes, all := vars, vars;
      conf := map n | n in vars :: {};
      pref := map n | n in vars :: [];
    }

    /** A copy sharing nothing with `g`. */
    constructor CopyOf(g: NodeGraph)
      requires g.Valid()
      ensures Valid() && View() == g.View()
    {
      nodes, all, conf, pref := g.nodes, g.all, g.conf, g.pref;
    }

    method AddConflict(a: Node, b: Node)
      requires Valid() && a in all && b in all && a != b
      modifies this
      ensures Valid() && nodes == old(nodes) && all == old(all) && pref == old(pref)
      ensures forall x, y :: Conf(View(), x, y) <==> Conf(old(View()), x, y) || (x == a && y == b) || (x == b && y == a)
    {
      ghost var g := View();
      conf := conf[a := conf[a] + {b}];
      conf := conf[b := conf[b] + {a}];
      forall x, y
        ensures Conf(View(), x, y) <==> Conf(g, x, y) || (x == a && y == b) || (x == b && y == a)
      {
        assert Conf(g, x, y) ==> Conf(g, y, x);
      }
      forall x, y
        ensures Conf(View(), x, y) ==> Conf(View(), y, x) && x != y
      {
        assert Conf(g, x, y) ==> Conf(g, y, x) && x != y;
      }
      forall x, y | x in all && y in all && x.Spot? && y.Spot? && x != y
        ensures Conf(View(), x, y)
      {
        assert Conf(g, x, y);
      }
      PrefUntouched(g, View());
    }

    /** A dummy node, made to conflict with every dummy node already present. */
    method AddDummyNode(v: Node)
      requires Valid() && v.Spot? && v !in all
      modifies this
      ensures Valid() && nodes == old(nodes) && all == old(all) + [v]
      ensures forall x, y :: Conf(View(), x, y) <==>
                Conf(old(View()), x, y) || (x == v && y.Spot? && y in old(all)) || (y == v && x.Spot? && x in old(all))
      ensures forall x, y :: Pref(View(), x, y) <==> Pref(old(View()), x, y)
    {
      ghost var g := View();
      all := all + [v];
      conf := JoinDummies(all, nodes, conf[v := {}], v);
      pref := pref[v := []];
      DummyAdded(g, View(), v);
    }

    method AddPref(a: Node, b: Node)
      requires Valid() && a in all && b in all && a != b
      modifies this
      ensures Valid() && nodes == old(nodes) && all == old(all) && conf == old(conf)
      ensures forall x, y :: Pref(View(), x, y) <==> Pref(old(View()), x, y) || (x == a && y == b) || (x == b && y == a)
    {
      ghost var g := View();
      if b !in pref[a] {
        NoDupSnoc(pref[a], b);
        pref := pref[a := pref[a] + [b]];
      }
      if a !in pref[b] {
        NoDupSnoc(pref[b], a);
        pref := pref[b := pref[b] + [a]];
      }
      forall x, y
        ensures Pref(View(), x, y) <==> Pref(g, x, y) || (x == a && y == b) || (x == b && y == a)
        ensures Pref(View(), x, y) ==> x != y
      {
        assert Pref(g, x, y) ==> Pref(g, y, x) && x != y;
      }
      forall x, y
        ensures Pref(View(), x, y) ==> Pref(View(), y, x)
      {
        assert Pref(g, x, y) ==> Pref(g, y, x);
      }
      ConfUntouched(g, View());
    }

    /** Remove `n` and every edge at it. */
    method Pop(n: Node)
      requires Valid() && n in all
      modifies this
      ensures Valid() && View() == Popped(old(View()), n)
    {
      ghost var g := View();
      PoppedKeeps(g, n);
      conf := DropConflicts(conf, n, g);
      pref := DropPreferences(pref, n, g);
      nodes, all := Without(nodes, n), Without(all, n);
    }

    /** Merge `n2` into `n1`. */
    method Merge(n1: Node, n2: Node)
      requires Mergeable(View(), n1, n2)
      modifies this
      ensures Valid() && View() == Merged(old(View()), n1, n2)
    {
      ghost var g := View();
      MergedKeeps(g, n1, n2);
      conf := JoinConflicts(conf, n1, n2, g);
      pref := JoinPreferences(pref, n1, n2, g);
      nodes, all := Without(nodes, n2), Without(all, n2);
    }

    method RemovePref(a: Node, b: Node)
      requires Valid() && Pref(View(), a, b)
      modifies this
      ensures Pref(old(View()), b, a)
      ensures Valid() && View() == PrefRemoved(old(View()), a, b)
    {
      ghost var g := View();
      PrefRemovedKeeps(g, a, b);
      pref := pref[a := Without(pref[a], b)];
      pref := pref[b := Without(pref[b], a)];
      assert a != b;
    }
  }

  // ---- the loops of the operations ----

  /** Make `v` conflict with every dummy node of `all`. */
  method JoinDummies(all: seq<Node>, nodes: seq<Node>, conf0: map<Node, set<Node>>, v: Node) returns (conf: map<Node, set<Node>>)
    requires forall n :: n in all ==> n in conf0 && (n in nodes <==> n.Var?)
    requires v in conf0
    ensures conf.Keys == conf0.Keys
    ensures forall x :: x in conf ==> conf[x] == DummyRow(all, conf0, v, x)
  {
    conf := conf0;
    for i := 0 to |all|
      invariant conf.Keys == conf0.Keys
      invariant forall x :: x in conf ==> conf[x] == DummyRow(all[..i], conf0, v, x)
    {
      var nd := all[i];
      assert all[..i + 1] == all[..i] + [nd];
      if nd !in nodes && nd != v {
        conf := conf[nd := conf[nd] + {v}];
        conf := conf[v := conf[v] + {nd}];
      }
    }
    assert all[..|all|] == all;
  }

  /** Row `x` of the conflict table after `v` was joined to the dummies seen. */
  ghost function DummyRow(seen: seq<Node>, conf0: map<Node, set<Node>>, v: Node, x: Node): set<Node>
    requires x in conf0
  {
    if x == v then conf0[x] + (set n | n in seen && n.Spot? && n != v)
    else if x in seen && x.Spot? then conf0[x] + {v}
    else conf0[x]
  }

  lemma DummyAdded(g: Graph, h: Graph, v: Node)
    requires WellFormed(g) && v.Spot? && v !in g.all
    requires h.nodes == g.nodes && h.all == g.all + [v] && h.pref == g.pref[v := []]
    requires h.conf.Keys == g.conf.Keys + {v}
    requires forall x :: x in h.conf ==> h.conf[x] == DummyRow(h.all, g.conf[v := {}], v, x)
    ensures WellFormed(h)
    ensures forall x, y :: Conf(h, x, y) <==>
              Conf(g, x, y) || (x == v && y.Spot? && y in g.all) || (y == v && x.Spot? && x in g.all)
    ensures forall x, y :: Pref(h, x, y) <==> Pref(g, x, y)
  {
    forall x, y
      ensures Conf(h, x, y) <==> Conf(g, x, y) || (x == v && y.Spot? && y in g.all) || (y == v && x.Spot? && x in g.all)
      ensures Conf(h, x, y) ==> Conf(h, y, x) && x != y
    {
      assert Conf(g, x, y) <==> Conf(g, y, x);
    }
    forall x, y | x in h.all && y in h.all && x.Spot? && y.Spot? && x != y
      ensures Conf(h, x, y)
    {
      assert x != v && y != v ==> Conf(g, x, y);
    }
    NoDupSnoc(g.all, v);
    PrefAddsEmpty(g, h, v);
  }

  method DropConflicts(conf0: map<Node, set<Node>>, n: Node, ghost g: Graph) returns (conf: map<Node, set<Node>>)
    requires conf0 == g.conf
    ensures conf == Popped(g, n).conf
  {
    conf := conf0 - {n};
    var todo := conf.Keys;
    while todo != {}
      invariant todo <= conf0.Keys - {n} == conf.Keys
      invariant forall v :: v in conf ==> conf[v] == if v in todo then conf0[v] else conf0[v] - {n}
    {
      var v :| v in todo;
      todo := todo - {v};
      if n in conf[v] {
        conf := conf[v := conf[v] - {n}];
      }
    }
  }

  method DropPreferences(pref0: map<Node, seq<Node>>, n: Node, ghost g: Graph) returns (pref: map<Node, seq<Node>>)
    requires pref0 == g.pref
    ensures pref == Popped(g, n).pref
  {
    pref := pref0 - {n};
    var todo := pref.Keys;
    while todo != {}
      invariant todo <= pref0.Keys - {n} == pref.Keys
      invariant forall v :: v in pref ==> pref[v] == if v in todo then pref0[v] else Without(pref0[v], n)
    {
      var v :| v in todo;
      todo := todo - {v};
      if n in pref[v] {
        pref := pref[v := Without(pref[v], n)];
      }
    }
  }

  /** Let `n1` take over `n2`'s conflicts and delete row `n2`. */
  method JoinConflicts(conf0: map<Node, set<Node>>, n1: Node, n2: Node, ghost g: Graph) returns (conf: map<Node, set<Node>>)
    requires Mergeable(g, n1, n2) && conf0 == g.conf
    ensures conf == Merged(g, n1, n2).conf
  {
    var joint := conf0[n1] + conf0[n2];
    conf := conf0[n1 := joint];
    assert !Conf(g, n2, n2) && !Conf(g, n1, n1) && !Conf(g, n2, n1);
    var todo := joint;
    while todo != {}
      invariant todo <= joint && conf.Keys == conf0.Keys
      invariant forall v :: v in conf ==>
        conf[v] == if v == n1 then joint else if v in joint - todo then conf0[v] - {n2} + {n1} else conf0[v]
    {
      var c :| c in todo;
      assert Conf(g, n1, c) ==> Conf(g, c, n1);
      assert Conf(g, n2, c) ==> Conf(g, c, n2);
      todo := todo - {c};
      if n2 in conf[c] {
        conf := conf[c := conf[c] - {n2}];
      }
      conf := conf[c := conf[c] + {n1}];
    }
    conf := conf - {n2};
  }

  /** Replace `n2` by `n1` in the preference list of every node in `rows`. */
  method Redirect(pref0: map<Node, seq<Node>>, rows: seq<Node>, n1: Node, n2: Node) returns (pref: map<Node, seq<Node>>)
    requires (forall i, j :: 0 <= i < j < |rows| ==> rows[i] != rows[j]) && forall c :: c in rows ==> c in pref0
    ensures pref.Keys == pref0.Keys
    ensures forall v :: v in pref ==> pref[v] == if v in rows then AddIfNew(Without(pref0[v], n2), n1) else pref0[v]
  {
    pref := pref0;
    for i := 0 to |rows|
      invariant pref.Keys == pref0.Keys
      invariant forall v :: v in pref && v !in rows ==> pref[v] == pref0[v]
      invariant forall k :: 0 <= k < i ==> pref[rows[k]] == AddIfNew(Without(pref0[rows[k]], n2), n1)
      invariant forall k :: i <= k < |rows| ==> pref[rows[k]] == pref0[rows[k]]
    {
      var c := rows[i];
      if n2 in pref[c] {
        pref := pref[c := Without(pref[c], n2)];
      }
      if n1 !in pref[c] {
        pref := pref[c := pref[c] + [n1]];
      }
    }
  }

  method JoinPreferences(pref0: map<Node, seq<Node>>, n1: Node, n2: Node, ghost g: Graph) returns (pref: map<Node, seq<Node>>)
    requires Mergeable(g, n1, n2) && pref0 == g.pref
    ensures pref == Merged(g, n1, n2).pref
  {
    var total := Without(Without(AddAllNew(pref0[n1], pref0[n2]), n1), n2);
    JointPrefElements(g, n1, n2);
    forall c | c in total
      ensures c in pref0
    {
      assert Pref(g, n1, c) || Pref(g, n2, c);
      assert Pref(g, n1, c) ==> Pref(g, c, n1);
      assert Pref(g, n2, c) ==> Pref(g, c, n2);
    }
    forall i, j | 0 <= i < j < |total| ensures total[i] != total[j] { assert Differ(total, i, j); }
    pref := Redirect(pref0[n1 := total], total, n1, n2);
    pref := pref - {n2};
  }

  lemma PrefUntouched(g: Graph, h: Graph)
    requires PrefOk(g) && g.pref == h.pref
    ensures PrefOk(h)
  {
    forall x, y ensures Pref(h, x, y) == Pref(g, x, y) {
    }
  }

  lemma ConfUntouched(g: Graph, h: Graph)
    requires ConfOk(g) && g.conf == h.conf && g.all == h.all
    ensures ConfOk(h)
  {
    forall x, y ensures Conf(h, x, y) == Conf(g, x, y) {
    }
  }

  lemma PrefAddsEmpty(g: Graph, h: Graph, v: Node)
    requires PrefOk(g) && v !in g.pref && h.pref == g.pref[v := []]
    ensures PrefOk(h) && forall x, y :: Pref(h, x, y) <==> Pref(g, x, y)
  {
    assert NoDup([]);
    forall x, y ensures Pref(h, x, y) == Pref(g, x, y) {
    }
  }
}
