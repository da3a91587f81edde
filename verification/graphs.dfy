/** Conflict and preference graphs as values: what each `NodeGraph` operation
    computes, and the representation invariant each one keeps. */
module Graphs {

  /** A real node is an IL value; a dummy node is a machine register. */
  datatype Node = Var(id: nat) | Spot(reg: nat)

  /** `nodes` lists the real nodes, `all` the real and the dummy ones. */
  datatype Graph = Graph(nodes: seq<Node>, all: seq<Node>, conf: map<Node, set<Node>>, pref: map<Node, seq<Node>>)

  predicate Differ(s: seq<Node>, i: nat, j: nat) {
    i < j < |s| ==> s[i] != s[j]
  }

  /** No node occurs twice. */
  ghost predicate NoDup(s: seq<Node>) {
    forall i: nat, j: nat {:trigger Differ(s, i, j)} :: Differ(s, i, j)
  }

  lemma NoDupTail(s: seq<Node>)
    requires NoDup(s) && s != []
    ensures NoDup(s[1..]) && s[0] !in s[1..]
  {
    forall i: nat, j: nat
      ensures Differ(s[1..], i, j)
    {
      assert Differ(s, i + 1, j + 1);
    }
    forall j: nat | 1 <= j < |s|
      ensures s[j] != s[0]
    {
      assert Differ(s, 0, j);
    }
  }

  lemma NoDupCons(x: Node, s: seq<Node>)
    requires NoDup(s) && x !in s
    ensures NoDup([x] + s)
  {
    forall i: nat, j: nat
      ensures Differ([x] + s, i, j)
    {
      if 0 < i < j <= |s| {
        assert Differ(s, i - 1, j - 1);
      }
    }
  }

  lemma NoDupSnoc(s: seq<Node>, x: Node)
    requires NoDup(s) && x !in s
    ensures NoDup(s + [x])
  {
    forall i: nat, j: nat
      ensures Differ(s + [x], i, j)
    {
      assert Differ(s, i, j);
    }
  }

  /** `s` less the first occurrence of `n`. */
  function Without(s: seq<Node>, n: Node): (r: seq<Node>)
    ensures n !in s ==> r == s
    ensures n in s ==> |r| == |s| - 1
  {
    if s == [] then [] else if s[0] == n then s[1..] else [s[0]] + Without(s[1..], n)
  }

  lemma {:induction false} WithoutElements(s: seq<Node>, n: Node)
    requires NoDup(s)
    ensures NoDup(Without(s, n)) && forall x :: x in Without(s, n) <==> x in s && x != n
  {
    if s != [] {
      var rest := s[1..];
      NoDupTail(s);
      WithoutElements(rest, n);
      assert forall x :: x in s <==> x == s[0] || x in rest;
      if s[0] != n {
        NoDupCons(s[0], Without(rest, n));
      }
    }
  }

  function AddIfNew(s: seq<Node>, n: Node): seq<Node> {
    if n in s then s else s + [n]
  }

  function AddAllNew(s: seq<Node>, more: seq<Node>): seq<Node>
    decreases |more|
  {
    if more == [] then s else AddAllNew(AddIfNew(s, more[0]), more[1..])
  }

  lemma AddIfNewElements(s: seq<Node>, n: Node)
    requires NoDup(s)
    ensures NoDup(AddIfNew(s, n)) && forall x :: x in AddIfNew(s, n) <==> x in s || x == n
  {
    if n !in s {
      NoDupSnoc(s, n);
    }
  }

  lemma {:induction false} AddAllElements(s: seq<Node>, more: seq<Node>)
    requires NoDup(s)
    ensures NoDup(AddAllNew(s, more)) && forall x :: x in AddAllNew(s, more) <==> x in s || x in more
    decreases |more|
  {
    if more != [] {
      assert forall x :: x in more <==> x == more[0] || x in more[1..];
      AddIfNewElements(s, more[0]);
      AddAllElements(AddIfNew(s, more[0]), more[1..]);
    }
  }

  // ---- the representation invariant ----

  predicate Conf(g: Graph, a: Node, b: Node) {
    a in g.conf && b in g.conf[a]
  }

  predicate Pref(g: Graph, a: Node, b: Node) {
    a in g.pref && b in g.pref[a]
  }

  ghost predicate Domains(g: Graph) {
    && NoDup(g.nodes) && NoDup(g.all)
    && (forall n :: n in g.nodes <==> n in g.all && n.Var?)
    && (forall n :: n in g.conf <==> n in g.all)
    && (forall n :: n in g.pref <==> n in g.all)
  }

  /** Conflicts are symmetric, self-free, between nodes of the graph, and hold
      between any two dummy nodes. */
  ghost predicate ConfOk(g: Graph) {
    && (forall a, b {:trigger Conf(g, a, b)} :: Conf(g, a, b) ==> Conf(g, b, a) && a != b)
    && (forall a, b {:trigger Conf(g, a, b)} :: a in g.all && b in g.all && a.Spot? && b.Spot? && a != b ==> Conf(g, a, b))
  }

  /** Preferences are symmetric, self-free lists without repetition. */
  ghost predicate PrefOk(g: Graph) {
    && (forall a, b {:trigger Pref(g, a, b)} :: Pref(g, a, b) ==> Pref(g, b, a) && a != b)
    && (forall a {:trigger g.pref[a]} :: a in g.pref ==> NoDup(g.pref[a]))
  }

  ghost predicate WellFormed(g: Graph) {
    Domains(g) && ConfOk(g) && PrefOk(g)
  }

  // ---- what the operations compute ----

  function Popped(g: Graph, n: Node): Graph {
    Graph(Without(g.nodes, n), Without(g.all, n),
          map v | v in g.conf && v != n :: g.conf[v] - {n},
          map v | v in g.pref && v != n :: Without(g.pref[v], n))
  }

  /** Preference neighbours of the node that `n2` is merged into. */
  function JointPrefs(g: Graph, n1: Node, n2: Node): seq<Node>
    requires n1 in g.pref && n2 in g.pref
  {
    Without(Without(AddAllNew(g.pref[n1], g.pref[n2]), n1), n2)
  }

  function Merged(g: Graph, n1: Node, n2: Node): Graph
    requires n1 in g.conf && n2 in g.conf && n1 in g.pref && n2 in g.pref
  {
    var joint := g.conf[n1] + g.conf[n2];
    var prefs := JointPrefs(g, n1, n2);
    Graph(Without(g.nodes, n2), Without(g.all, n2),
          map v | v in g.conf && v != n2 ::
            if v == n1 then joint else if v in joint then g.conf[v] - {n2} + {n1} else g.conf[v],
          map v | v in g.pref && v != n2 ::
            if v == n1 then prefs else if v in prefs then AddIfNew(Without(g.pref[v], n2), n1) else g.pref[v])
  }

  function PrefRemoved(g: Graph, a: Node, b: Node): Graph
    requires a in g.pref && b in g.pref
  {
    g.(pref := g.pref[a := Without(g.pref[a], b)][b := Without(g.pref[b], a)])
  }

  // ---- what they do to the two relations ----

  lemma PoppedConf(g: Graph, n: Node, a: Node, b: Node)
    ensures Conf(Popped(g, n), a, b) <==> Conf(g, a, b) && a != n && b != n
  {
  }

  lemma PoppedPref(g: Graph, n: Node, a: Node, b: Node)
    requires PrefOk(g)
    ensures Pref(Popped(g, n), a, b) <==> Pref(g, a, b) && a != n && b != n
  {
    if a in g.pref {
      WithoutElements(g.pref[a], n);
    }
  }

  lemma PoppedKeeps(g: Graph, n: Node)
    requires WellFormed(g) && n in g.all
    ensures WellFormed(Popped(g, n))
  {
    var h := Popped(g, n);
    WithoutElements(g.nodes, n);
    WithoutElements(g.all, n);
    forall a, b
      ensures Conf(h, a, b) <==> Conf(g, a, b) && a != n && b != n
      ensures Pref(h, a, b) <==> Pref(g, a, b) && a != n && b != n
    {
      PoppedConf(g, n, a, b);
      PoppedPref(g, n, a, b);
    }
    forall a | a in h.pref
      ensures NoDup(h.pref[a])
    {
      WithoutElements(g.pref[a], n);
    }
  }

  /** What a merge asks of its caller: the second node is real, and they do not conflict. */
  ghost predicate Mergeable(g: Graph, n1: Node, n2: Node) {
    WellFormed(g) && n1 in g.all && n2 in g.nodes && n1 != n2 && !Conf(g, n1, n2)
  }

  lemma MergedConf(g: Graph, n1: Node, n2: Node, a: Node, b: Node)
    requires Mergeable(g, n1, n2)
    ensures Conf(Merged(g, n1, n2), a, b) <==>
            a != n2 && b != n2 && (Conf(g, a, b) || (a == n1 && Conf(g, n2, b)) || (b == n1 && Conf(g, a, n2)))
  {
    assert Conf(g, n1, a) <==> Conf(g, a, n1);
    assert Conf(g, n2, a) <==> Conf(g, a, n2);
    assert !Conf(g, n2, n2) && !Conf(g, n2, n1);
    assert a != n1 && Conf(g, a, n2) ==> a in g.conf[n1] + g.conf[n2];
  }

  lemma JointPrefElements(g: Graph, n1: Node, n2: Node)
    requires PrefOk(g) && n1 in g.pref && n2 in g.pref
    ensures NoDup(JointPrefs(g, n1, n2))
    ensures forall x :: x in JointPrefs(g, n1, n2) <==> (x in g.pref[n1] || x in g.pref[n2]) && x != n1 && x != n2
  {
    AddAllElements(g.pref[n1], g.pref[n2]);
    WithoutElements(AddAllNew(g.pref[n1], g.pref[n2]), n1);
    WithoutElements(Without(AddAllNew(g.pref[n1], g.pref[n2]), n1), n2);
  }

  lemma MergedPref(g: Graph, n1: Node, n2: Node, a: Node, b: Node)
    requires Mergeable(g, n1, n2)
    ensures Pref(Merged(g, n1, n2), a, b) <==>
            a != n2 && b != n2 && a != b && (Pref(g, a, b) || (a == n1 && Pref(g, n2, b)) || (b == n1 && Pref(g, a, n2)))
    ensures a in Merged(g, n1, n2).pref ==> NoDup(Merged(g, n1, n2).pref[a])
  {
    JointPrefElements(g, n1, n2);
    assert Pref(g, n1, a) <==> Pref(g, a, n1);
    assert Pref(g, n2, a) <==> Pref(g, a, n2);
    assert Pref(g, a, b) ==> a != b;
    if a in g.pref {
      WithoutElements(g.pref[a], n2);
      AddIfNewElements(Without(g.pref[a], n2), n1);
    }
  }

  /** Merging two nodes that do not conflict keeps the graph well formed. */
  lemma MergedKeeps(g: Graph, n1: Node, n2: Node)
    requires Mergeable(g, n1, n2)
    ensures WellFormed(Merged(g, n1, n2))
  {
    var h := Merged(g, n1, n2);
    WithoutElements(g.nodes, n2);
    WithoutElements(g.all, n2);
    forall a, b
      ensures Conf(h, a, b) ==> Conf(h, b, a) && a != b
      ensures a in h.all && b in h.all && a.Spot? && b.Spot? && a != b ==> Conf(h, a, b)
    {
      MergedConf(g, n1, n2, a, b);
      MergedConf(g, n1, n2, b, a);
      assert Conf(g, n2, b) <==> Conf(g, b, n2);
      assert Conf(g, n2, a) <==> Conf(g, a, n2);
      assert Conf(g, a, b) <==> Conf(g, b, a);
    }
    forall a, b
      ensures Pref(h, a, b) ==> Pref(h, b, a) && a != b
    {
      MergedPref(g, n1, n2, a, b);
      MergedPref(g, n1, n2, b, a);
      assert Pref(g, n2, b) <==> Pref(g, b, n2);
      assert Pref(g, n2, a) <==> Pref(g, a, n2);
      assert Pref(g, a, b) <==> Pref(g, b, a);
    }
    forall a | a in h.pref
      ensures NoDup(h.pref[a])
    {
      MergedPref(g, n1, n2, a, a);
    }
  }

  lemma PrefRemovedPref(g: Graph, a: Node, b: Node, x: Node, y: Node)
    requires PrefOk(g) && Pref(g, a, b)
    ensures Pref(g, b, a) && a != b
    ensures Pref(PrefRemoved(g, a, b), x, y) <==> Pref(g, x, y) && !(x == a && y == b) && !(x == b && y == a)
  {
    assert Pref(g, b, a);
    WithoutElements(g.pref[a], b);
    WithoutElements(g.pref[b], a);
  }

  lemma PrefRemovedKeeps(g: Graph, a: Node, b: Node)
    requires WellFormed(g) && Pref(g, a, b)
    ensures Pref(g, b, a) && WellFormed(PrefRemoved(g, a, b))
  {
    assert Pref(g, b, a);
    var h := PrefRemoved(g, a, b);
    forall x, y
      ensures Conf(h, x, y) == Conf(g, x, y)
      ensures Pref(h, x, y) ==> Pref(h, y, x) && x != y
    {
      PrefRemovedPref(g, a, b, x, y);
      PrefRemovedPref(g, a, b, y, x);
      assert Pref(g, x, y) ==> Pref(g, y, x);
    }
    WithoutElements(g.pref[a], b);
    WithoutElements(g.pref[b], a);
  }

  // ---- graphs as quotients of the graph the allocator started from ----

  /** Each original node's current representative. */
  type Roots = map<Node, Node>

  ghost predicate MembersConflict(o: Graph, root: Roots, a: Node, b: Node, x: Node, y: Node) {
    x in root && y in root && root[x] == a && root[y] == b && Conf(o, x, y)
  }

  ghost predicate GroupsConflict(o: Graph, root: Roots, a: Node, b: Node) {
    exists x, y :: MembersConflict(o, root, a, b, x, y)
  }

  ghost predicate Rooted(o: Graph, g: Graph, root: Roots) {
    && (forall x :: x in root <==> x in o.all)
    && (forall a :: a in g.all ==> a in root && root[a] == a)
  }

  /** Two remaining nodes conflict exactly when some member of one's group
      conflicted with some member of the other's in the original graph. */
  ghost predicate Quotient(o: Graph, g: Graph, root: Roots) {
    && Rooted(o, g, root)
    && (forall a, b {:trigger Conf(g, a, b)} {:trigger GroupsConflict(o, root, a, b)} ::
          a in g.all && b in g.all ==> (Conf(g, a, b) <==> GroupsConflict(o, root, a, b)))
  }

  function Rerooted(root: Roots, n1: Node, n2: Node): Roots {
    map x | x in root :: if root[x] == n2 then n1 else root[x]
  }

  function Identity(all: seq<Node>): Roots {
    map x | x in all :: x
  }

  lemma QuotientStarts(o: Graph)
    requires WellFormed(o)
    ensures Quotient(o, o, Identity(o.all))
  {
    var root := Identity(o.all);
    forall a, b | a in o.all && b in o.all
      ensures Conf(o, a, b) <==> GroupsConflict(o, root, a, b)
    {
      assert Conf(o, a, b) ==> MembersConflict(o, root, a, b, a, b);
    }
  }

  lemma QuotientPopped(o: Graph, g: Graph, root: Roots, n: Node)
    requires WellFormed(g) && Quotient(o, g, root) && n in g.all
    ensures Quotient(o, Popped(g, n), root)
  {
    WithoutElements(g.all, n);
    forall a, b | a in Popped(g, n).all && b in Popped(g, n).all
      ensures Conf(Popped(g, n), a, b) <==> GroupsConflict(o, root, a, b)
    {
      PoppedConf(g, n, a, b);
    }
  }

  lemma GroupGrows(o: Graph, root: Roots, n1: Node, n2: Node, a: Node, b: Node)
    requires GroupsConflict(o, root, a, b)
    ensures GroupsConflict(o, Rerooted(root, n1, n2), if a == n2 then n1 else a, if b == n2 then n1 else b)
  {
    var x, y :| MembersConflict(o, root, a, b, x, y);
    assert MembersConflict(o, Rerooted(root, n1, n2), if a == n2 then n1 else a, if b == n2 then n1 else b, x, y);
  }

  lemma GroupsAfterMerge(o: Graph, root: Roots, n1: Node, n2: Node, a: Node, b: Node)
    requires a != n2 && b != n2 && n1 != n2
    ensures GroupsConflict(o, Rerooted(root, n1, n2), a, b) <==>
            || GroupsConflict(o, root, a, b)
            || (a == n1 && GroupsConflict(o, root, n2, b))
            || (b == n1 && GroupsConflict(o, root, a, n2))
            || (a == n1 && b == n1 && GroupsConflict(o, root, n2, n2))
  {
    var r := Rerooted(root, n1, n2);
    if GroupsConflict(o, r, a, b) {
      var x, y :| MembersConflict(o, r, a, b, x, y);
      assert MembersConflict(o, root, root[x], root[y], x, y);
      assert GroupsConflict(o, root, root[x], root[y]);
    }
    if GroupsConflict(o, root, a, b) { GroupGrows(o, root, n1, n2, a, b); }
    if a == n1 && GroupsConflict(o, root, n2, b) { GroupGrows(o, root, n1, n2, n2, b); }
    if b == n1 && GroupsConflict(o, root, a, n2) { GroupGrows(o, root, n1, n2, a, n2); }
    if a == n1 && b == n1 && GroupsConflict(o, root, n2, n2) { GroupGrows(o, root, n1, n2, n2, n2); }
  }

  lemma QuotientMerged(o: Graph, g: Graph, root: Roots, n1: Node, n2: Node)
    requires Mergeable(g, n1, n2) && Quotient(o, g, root)
    ensures Quotient(o, Merged(g, n1, n2), Rerooted(root, n1, n2))
  {
    var h, r := Merged(g, n1, n2), Rerooted(root, n1, n2);
    WithoutElements(g.all, n2);
    forall a, b | a in h.all && b in h.all
      ensures Conf(h, a, b) <==> GroupsConflict(o, r, a, b)
    {
      GroupsAfterMerge(o, root, n1, n2, a, b);
      MergedConf(g, n1, n2, a, b);
      assert !Conf(g, n2, n2);
      assert !GroupsConflict(o, root, n2, n2);
    }
  }

  // ---- any history of operations ----

  datatype Edit = Remove(n: Node) | Merge(into: Node, from: Node) | Unprefer(a: Node, b: Node)

  /** An edit the allocator may make of `g`. */
  ghost predicate Legal(g: Graph, e: Edit) {
    match e
    case Remove(n) => n in g.all
    case Merge(a, b) => Mergeable(g, a, b)
    case Unprefer(a, b) => Pref(g, a, b) && Pref(g, b, a)
  }

  ghost function Edited(g: Graph, e: Edit): Graph
    requires Legal(g, e)
  {
    match e
    case Remove(n) => Popped(g, n)
    case Merge(a, b) => Merged(g, a, b)
    case Unprefer(a, b) => PrefRemoved(g, a, b)
  }

  ghost function EditedRoots(root: Roots, e: Edit): Roots {
    if e.Merge? then Rerooted(root, e.into, e.from) else root
  }

  /** `g` and `root` result from the edits `es`, each legal when made, of `o`. */
  ghost predicate History(o: Graph, es: seq<Edit>, g: Graph, root: Roots)
    decreases |es|, 1
  {
    if es == [] then g == o && root == Identity(o.all)
    else exists g0, root0 :: LastEdit(o, es, g0, root0, g, root)
  }

  ghost predicate LastEdit(o: Graph, es: seq<Edit>, g0: Graph, root0: Roots, g: Graph, root: Roots)
    requires es != []
    decreases |es|, 0
  {
    var last := es[|es| - 1];
    && History(o, es[..|es| - 1], g0, root0) && Legal(g0, last)
    && g == Edited(g0, last) && root == EditedRoots(root0, last)
  }

  /** After any sequence of merges, removals and dropped preferences the graph is
      the quotient of the original by the merged groups, and both relations are
      symmetric and self-free. */
  lemma {:induction false} HistoryIsQuotient(o: Graph, es: seq<Edit>, g: Graph, root: Roots)
    requires WellFormed(o) && History(o, es, g, root)
    ensures WellFormed(g) && Quotient(o, g, root)
    decreases |es|
  {
    if es == [] {
      QuotientStarts(o);
    } else {
      var g0, root0 :| LastEdit(o, es, g0, root0, g, root);
      HistoryIsQuotient(o, es[..|es| - 1], g0, root0);
      match es[|es| - 1] {
        case Remove(n) =>
          PoppedKeeps(g0, n);
          QuotientPopped(o, g0, root0, n);
        case Merge(a, b) =>
          MergedKeeps(g0, a, b);
          QuotientMerged(o, g0, root0, a, b);
        case Unprefer(a, b) =>
          PrefRemovedKeeps(g0, a, b);
          QuotientUnpreferred(o, g0, root0, a, b);
      }
    }
  }

  lemma QuotientUnpreferred(o: Graph, g: Graph, root: Roots, a: Node, b: Node)
    requires Quotient(o, g, root) && a in g.pref && b in g.pref
    ensures Quotient(o, PrefRemoved(g, a, b), root)
  {
    forall x, y ensures Conf(PrefRemoved(g, a, b), x, y) == Conf(g, x, y) {
    }
  }
}
