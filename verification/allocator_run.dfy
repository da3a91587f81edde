/** A run of the colouring allocator as the list of moves it makes, each judged by
    the graph it is made in. */
module AllocatorRuns {
  import opened Graphs
  import opened Conservative
  import opened ColouringState
  import opened Reductions

  datatype Move =
    | Simplified(n: Node)
    | Coalesced(into: Node, from: Node)
    | Frozen(a: Node, b: Node)
    | Optimistic(n: Node)
    | Dummy(n: Node)

  /** Nothing can be simplified and nothing merged. */
  ghost predicate Stalled(g: Graph, k: nat) {
    && (forall v :: !Simplifiable(g, k, v))
    && (forall v :: v in g.nodes ==> NothingJoinable(g, k, v))
  }

  /** Every real node has degree `k` or more, none more than `n`, and those listed ahead
      of `n` have less. */
  ghost predicate HighestOfHigh(g: Graph, k: nat, n: Node) {
    && n in g.nodes && n in g.conf && (forall v :: v in g.nodes ==> v in g.conf && k <= |g.conf[v]| <= |g.conf[n]|)
    && exists i :: 0 <= i < |g.nodes| && g.nodes[i] == n && forall j :: 0 <= j < i ==> g.nodes[j] in g.conf && |g.conf[g.nodes[j]]| < |g.conf[n]|
  }

  ghost predicate JoinAllowed(g: Graph, k: nat, a: Node, b: Node) {
    exists v1, v2 :: FirstJoinable(g, k, v1, v2) && (a, b) == Joined(v1, v2)
  }

  /** When the allocator makes each kind of move. */
  ghost predicate Allowed(g: Graph, k: nat, m: Move) {
    match m
    case Simplified(n) => Simplifiable(g, k, n)
    case Coalesced(a, b) => Mergeable(g, a, b) && JoinAllowed(g, k, a, b)
    case Frozen(a, b) => Stalled(g, k) && LowestEdge(g, a, b)
    case Optimistic(n) => HighestOfHigh(g, k, n)
    case Dummy(n) => g.nodes == [] && n in g.all && n.Spot?
  }

  function EditOf(m: Move): Edit {
    match m
    case Simplified(n) => Remove(n)
    case Coalesced(a, b) => Merge(a, b)
    case Frozen(a, b) => Unprefer(a, b)
    case Optimistic(n) => Remove(n)
    case Dummy(n) => Remove(n)
  }

  /** The moves `ms`, each allowed when made, turn `o` into `g` and group its nodes by `root`. */
  ghost predicate Performed(o: Graph, k: nat, ms: seq<Move>, g: Graph, root: Roots)
    decreases |ms|, 1
  {
    if ms == [] then g == o && root == Identity(o.all)
    else exists g0, root0 :: LastMove(o, k, ms, g0, root0, g, root)
  }

  ghost predicate LastMove(o: Graph, k: nat, ms: seq<Move>, g0: Graph, root0: Roots, g: Graph, root: Roots)
    requires ms != []
    decreases |ms|, 0
  {
    var last := ms[|ms| - 1];
    && Performed(o, k, ms[..|ms| - 1], g0, root0) && Allowed(g0, k, last) && Legal(g0, EditOf(last))
    && g == Edited(g0, EditOf(last)) && root == EditedRoots(root0, EditOf(last))
  }

  lemma OneMove(o: Graph, k: nat, ms: seq<Move>, g0: Graph, root0: Roots, m: Move)
    requires Performed(o, k, ms, g0, root0) && Allowed(g0, k, m) && Legal(g0, EditOf(m))
    ensures Performed(o, k, ms + [m], Edited(g0, EditOf(m)), EditedRoots(root0, EditOf(m)))
  {
    var all := ms + [m];
    assert all[..|all| - 1] == ms;
    assert LastMove(o, k, all, g0, root0, Edited(g0, EditOf(m)), EditedRoots(root0, EditOf(m)));
  }

  // ---- what the moves say ----

  function SimplifiedBy(ms: seq<Move>): set<Node> { set m | m in ms && m.Simplified? :: m.n }

  function OptimisticBy(ms: seq<Move>): set<Node> { set m | m in ms && m.Optimistic? :: m.n }

  predicate IsPush(m: Move) { m.Simplified? || m.Optimistic? || m.Dummy? }

  /** The colouring stack: the nodes pushed, in order. */
  function StackOf(ms: seq<Move>): seq<Node> {
    if ms == [] then []
    else
      var m := ms[|ms| - 1];
      StackOf(ms[..|ms| - 1]) + (if IsPush(m) then [m.n] else [])
  }

  lemma StackThen(ms: seq<Move>, m: Move)
    ensures StackOf(ms + [m]) == StackOf(ms) + if IsPush(m) then [m.n] else []
    ensures SimplifiedBy(ms + [m]) == SimplifiedBy(ms) + if m.Simplified? then {m.n} else {}
    ensures OptimisticBy(ms + [m]) == OptimisticBy(ms) + if m.Optimistic? then {m.n} else {}
  {
    assert (ms + [m])[..|ms|] == ms;
  }

  /** Every move was allowed in the graph that the moves before it had left: a node
      simplified had fewer than `k` conflicts there, one pushed optimistically `k`
      or more. */
  lemma {:induction false} MoveWasAllowed(o: Graph, k: nat, ms: seq<Move>, g: Graph, root: Roots, i: nat) returns (g0: Graph, root0: Roots)
    requires Performed(o, k, ms, g, root) && i < |ms|
    ensures Performed(o, k, ms[..i], g0, root0) && Allowed(g0, k, ms[i])
    ensures ms[i].Simplified? ==> ms[i].n in g0.conf && |g0.conf[ms[i].n]| < k
    ensures ms[i].Optimistic? ==> ms[i].n in g0.conf && |g0.conf[ms[i].n]| >= k
    decreases |ms|
  {
    g0, root0 :| LastMove(o, k, ms, g0, root0, g, root);
    if i < |ms| - 1 {
      assert ms[..|ms| - 1][..i] == ms[..i];
      g0, root0 := MoveWasAllowed(o, k, ms[..|ms| - 1], g0, root0, i);
    }
  }

  /** A run is a history of removals, merges and dropped preferences. */
  function EditsOf(ms: seq<Move>): seq<Edit> {
    seq(|ms|, i requires 0 <= i < |ms| => EditOf(ms[i]))
  }

  lemma {:induction false} RunIsHistory(o: Graph, k: nat, ms: seq<Move>, g: Graph, root: Roots)
    requires Performed(o, k, ms, g, root)
    ensures History(o, EditsOf(ms), g, root)
    decreases |ms|
  {
    if ms != [] {
      var g0, root0 :| LastMove(o, k, ms, g0, root0, g, root);
      RunIsHistory(o, k, ms[..|ms| - 1], g0, root0);
      var es := EditsOf(ms);
      assert es[..|es| - 1] == EditsOf(ms[..|ms| - 1]);
      assert LastEdit(o, es, g0, root0, g, root);
    }
  }

  /** After a run the nodes still there are one per group, conflicting exactly if
      some members of their groups conflicted at the start. */
  lemma RunIsQuotient(o: Graph, k: nat, ms: seq<Move>, g: Graph, root: Roots)
    requires WellFormed(o) && Performed(o, k, ms, g, root)
    ensures WellFormed(g) && Quotient(o, g, root)
  {
    RunIsHistory(o, k, ms, g, root);
    HistoryIsQuotient(o, EditsOf(ms), g, root);
  }

  /** The nodes pushed are pushed once each and are gone from `left`. */
  ghost predicate PushesApart(ms: seq<Move>, left: seq<Node>) {
    && NoDup(StackOf(ms)) && (forall n :: n in StackOf(ms) ==> n !in left)
    && SimplifiedBy(ms) !! OptimisticBy(ms)
    && (forall n :: n in SimplifiedBy(ms) || n in OptimisticBy(ms) ==> n in StackOf(ms))
  }

  lemma MoveRemoves(g: Graph, k: nat, m: Move)
    requires WellFormed(g) && Allowed(g, k, m) && Legal(g, EditOf(m))
    ensures IsPush(m) ==> m.n in g.all
    ensures forall n :: n in Edited(g, EditOf(m)).all ==> n in g.all && (IsPush(m) ==> n != m.n)
  {
    match m {
      case Coalesced(a, b) => WithoutElements(g.all, b);
      case Frozen(a, b) =>
      case _ => WithoutElements(g.all, m.n);
    }
  }

  lemma PushesStayApart(ms: seq<Move>, m: Move, left0: seq<Node>, left: seq<Node>)
    requires PushesApart(ms, left0) && (IsPush(m) ==> m.n in left0)
    requires forall n :: n in left ==> n in left0 && (IsPush(m) ==> n != m.n)
    ensures PushesApart(ms + [m], left)
  {
    StackThen(ms, m);
    if IsPush(m) {
      NoDupSnoc(StackOf(ms), m.n);
    } else {
      assert StackOf(ms + [m]) == StackOf(ms);
    }
  }

  lemma StillPushedOnce(o: Graph, k: nat, ms: seq<Move>, g0: Graph, root0: Roots, g: Graph, root: Roots)
    requires WellFormed(o) && ms != [] && LastMove(o, k, ms, g0, root0, g, root) && PushesApart(ms[..|ms| - 1], g0.all)
    ensures PushesApart(ms, g.all)
  {
    var before, m := ms[..|ms| - 1], ms[|ms| - 1];
    assert ms == before + [m];
    RunIsQuotient(o, k, before, g0, root0);
    MoveRemoves(g0, k, m);
    PushesStayApart(before, m, g0.all, g.all);
  }

  /** No node is pushed twice: once pushed it never comes back. */
  lemma {:induction false} PushedOnce(o: Graph, k: nat, ms: seq<Move>, g: Graph, root: Roots)
    requires WellFormed(o) && Performed(o, k, ms, g, root)
    ensures PushesApart(ms, g.all)
    decreases |ms|
  {
    if ms == [] {
      assert NoDup([]);
    } else {
      var g0, root0 :| LastMove(o, k, ms, g0, root0, g, root);
      PushedOnce(o, k, ms[..|ms| - 1], g0, root0);
      StillPushedOnce(o, k, ms, g0, root0, g, root);
    }
  }

  // ---- the allocator's state after a run ----

  /** The state reached by the moves `ms`. */
  ghost predicate Reached(o: Graph, k: nat, ms: seq<Move>, s: State) {
    Tracked(o, k, s, OptimisticBy(ms)) && Booked(ms, s.low, s.removed) && Performed(o, k, ms, s.g, s.root)
  }

  ghost predicate Booked(ms: seq<Move>, low: set<Node>, removed: seq<Node>) {
    low == SimplifiedBy(ms) && removed == StackOf(ms)
  }

  lemma BookPush(ms: seq<Move>, m: Move, low: set<Node>, removed: seq<Node>)
    requires Booked(ms, low, removed) && IsPush(m)
    ensures Booked(ms + [m], if m.Simplified? then low + {m.n} else low, removed + [m.n])
    ensures OptimisticBy(ms + [m]) == if m.Optimistic? then OptimisticBy(ms) + {m.n} else OptimisticBy(ms)
  {
    StackThen(ms, m);
  }

  lemma BookOther(ms: seq<Move>, m: Move, low: set<Node>, removed: seq<Node>)
    requires Booked(ms, low, removed) && !IsPush(m)
    ensures Booked(ms + [m], low, removed) && OptimisticBy(ms + [m]) == OptimisticBy(ms)
  {
    StackThen(ms, m);
  }

  lemma PerformPush(o: Graph, k: nat, ms: seq<Move>, g: Graph, root: Roots, m: Move)
    requires WellFormed(g) && Performed(o, k, ms, g, root) && IsPush(m) && Allowed(g, k, m)
    ensures m.n in g.all && (m.Simplified? ==> m.n.Var? && m.n in g.conf && |g.conf[m.n]| < k) && (m.Optimistic? <==> !m.Simplified? && m.n.Var?)
    ensures Performed(o, k, ms + [m], Popped(g, m.n), root)
  {
    assert Legal(g, EditOf(m));
    OneMove(o, k, ms, g, root, m);
  }

  /** Pushing a node, as a move. */
  lemma ReachPush(o: Graph, k: nat, ms: seq<Move>, s: State, m: Move)
    requires Reached(o, k, ms, s) && IsPush(m) && Allowed(s.g, k, m)
    requires m.Optimistic? ==> !Emptiable(o.conf, k)
    ensures m.n in s.g.conf && Reached(o, k, ms + [m], Push(s, m.n, m.Simplified?))
  {
    PerformPush(o, k, ms, s.g, s.root, m);
    BookPush(ms, m, s.low, s.removed);
    TrackPush(o, k, s, OptimisticBy(ms), m.n, m.Simplified?);
  }

  /** Merging two nodes, as a move. */
  lemma ReachJoin(o: Graph, k: nat, ms: seq<Move>, s: State, a: Node, b: Node)
    requires Reached(o, k, ms, s) && Allowed(s.g, k, Coalesced(a, b))
    requires Emptiable(s.g.conf, k) ==> Emptiable(Merged(s.g, a, b).conf, k)
    ensures a in s.rank && b in s.rank && Reached(o, k, ms + [Coalesced(a, b)], Join(s, a, b))
  {
    PerformOther(o, k, ms, s.g, s.root, Coalesced(a, b));
    BookOther(ms, Coalesced(a, b), s.low, s.removed);
    TrackJoin(o, k, s, OptimisticBy(ms), a, b);
  }

  lemma PerformOther(o: Graph, k: nat, ms: seq<Move>, g: Graph, root: Roots, m: Move)
    requires WellFormed(g) && Performed(o, k, ms, g, root) && !IsPush(m) && Allowed(g, k, m)
    ensures Legal(g, EditOf(m)) && Performed(o, k, ms + [m], Edited(g, EditOf(m)), EditedRoots(root, EditOf(m)))
    ensures m.Coalesced? ==> Mergeable(g, m.into, m.from)
    ensures m.Frozen? ==> Pref(g, m.a, m.b)
  {
    OneMove(o, k, ms, g, root, m);
  }

  /** Freezing a preference, as a move. */
  lemma ReachFreeze(o: Graph, k: nat, ms: seq<Move>, s: State, a: Node, b: Node)
    requires Reached(o, k, ms, s) && Allowed(s.g, k, Frozen(a, b))
    ensures Pref(s.g, b, a) && Reached(o, k, ms + [Frozen(a, b)], s.(g := PrefRemoved(s.g, a, b)))
  {
    PerformOther(o, k, ms, s.g, s.root, Frozen(a, b));
    BookOther(ms, Frozen(a, b), s.low, s.removed);
    TrackUnprefer(o, k, s, OptimisticBy(ms), a, b);
  }
}
