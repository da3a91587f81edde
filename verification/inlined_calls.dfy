/** Which calls inlining leaves. */
module InlinedCalls {
  import opened IL
  import opened InlineBodies
  import opened InlineCalls

  /** The calls among some commands, in order. */
  function CallsOf(cs: seq<Cmd>): seq<Cmd> {
    if cs == [] then [] else CallsOf(cs[..|cs| - 1]) + (if cs[|cs| - 1].Call? then [cs[|cs| - 1]] else [])
  }

  /** A call whose callee has a captured body, whose result is kept, and which passes
      one argument for each of the body's parameters. */
  predicate Fitting(table: Table, c: Cmd) {
    c.Call? && c.fn in table && |c.ret| == 1 && |c.args| == |table[c.fn].params|
  }

  /** The other ones, in order. */
  function Unfitting(table: Table, cs: seq<Cmd>): seq<Cmd> {
    if cs == [] then []
    else
      var c := cs[|cs| - 1];
      Unfitting(table, cs[..|cs| - 1]) + (if c.Call? && !Fitting(table, c) then [c] else [])
  }

  /** No captured body calls anything. */
  ghost predicate Quiet(table: Table) {
    forall f, c :: f in table && c in table[f].ops ==> !c.Call?
  }

  lemma {:induction false} CallsJoin(a: seq<Cmd>, b: seq<Cmd>)
    ensures CallsOf(a + b) == CallsOf(a) + CallsOf(b)
  {
    if b == [] {
      assert a + b == a;
    } else {
      var n := |b| - 1;
      CallsJoin(a, b[..n]);
      assert (a + b)[..|a| + n] == a + b[..n] && (a + b)[|a| + n] == b[n];
      assert CallsOf(a + b) == CallsOf(a) + CallsOf(b[..n]) + (if b[n].Call? then [b[n]] else []);
    }
  }

  lemma {:induction false} NoCalls(cs: seq<Cmd>)
    requires forall c :: c in cs ==> !c.Call?
    ensures CallsOf(cs) == []
  {
    if cs != [] {
      NoCalls(cs[..|cs| - 1]);
    }
  }

  lemma {:induction false} ClonesAreQuiet(s: Splice, ret: Operand, n: nat)
    requires n <= |s.b.ops| && forall c :: c in s.b.ops ==> !c.Call?
    ensures forall c :: c in Clones(s, ret, n) ==> !c.Call?
  {
    if n > 0 {
      ClonesAreQuiet(s, ret, n - 1);
      assert s.b.ops[n - 1] in s.b.ops;
    }
  }

  /** What stands for one command of the caller keeps its call only if it does not fit. */
  lemma PieceCalls(p: seq<Cmd>, table: Table, plan: Plan, i: nat)
    requires Plans(p, table, plan) && Quiet(table) && i < |p|
    ensures CallsOf(Piece(p, plan, i)) == if p[i].Call? && !Fitting(table, p[i]) then [p[i]] else []
  {
    assert PlanAt(p, table, plan, i);
    if plan[i].Some? {
      var s := plan[i].value;
      assert forall c :: c in s.b.ops ==> !c.Call? by {
        assert p[i].fn in table && s.b == table[p[i].fn];
      }
      ClonesAreQuiet(s, p[i].ret[0], |s.b.ops|);
      NoCalls(Block(s, p[i].args, p[i].ret[0]));
    } else {
      assert [p[i]][..0] == [];
      assert CallsOf([p[i]]) == if p[i].Call? then [p[i]] else [];
    }
  }

  lemma FlatCalls(ps: seq<seq<Cmd>>, front: seq<seq<Cmd>>, last: seq<Cmd>)
    requires ps == front + [last]
    ensures CallsOf(Flat(ps)) == CallsOf(Flat(front)) + CallsOf(last)
  {
    assert ps[..|ps| - 1] == front;
    CallsJoin(Flat(front), last);
  }

  lemma UnfittingLast(table: Table, p: seq<Cmd>, n: nat)
    requires n < |p|
    ensures Unfitting(table, p[..n + 1]) == Unfitting(table, p[..n]) + if p[n].Call? && !Fitting(table, p[n]) then [p[n]] else []
  {
    assert p[..n + 1][..n] == p[..n];
  }

  ghost predicate OthersLeft(p: seq<Cmd>, table: Table, ps: seq<seq<Cmd>>, n: nat)
    requires n <= |p|
  {
    CallsOf(Flat(ps)) == Unfitting(table, p[..n])
  }

  lemma OthersLeftThen(p: seq<Cmd>, table: Table, ps: seq<seq<Cmd>>, front: seq<seq<Cmd>>, last: seq<Cmd>, n: nat)
    requires n < |p| && OthersLeft(p, table, front, n) && ps == front + [last]
    requires CallsOf(last) == if p[n].Call? && !Fitting(table, p[n]) then [p[n]] else []
    ensures OthersLeft(p, table, ps, n + 1)
  {
    FlatCalls(ps, front, last);
    UnfittingLast(table, p, n);
  }

  lemma PiecesGrow(p: seq<Cmd>, plan: Plan, n: nat)
    requires n < |p| == |plan|
    ensures Pieces(p, plan, n + 1) == Pieces(p, plan, n) + [Piece(p, plan, n)]
  {
  }

  lemma {:induction false} PrefixCalls(p: seq<Cmd>, table: Table, plan: Plan, n: nat)
    requires Plans(p, table, plan) && Quiet(table) && n <= |p|
    ensures OthersLeft(p, table, Pieces(p, plan, n), n)
  {
    if n > 0 {
      PrefixCalls(p, table, plan, n - 1);
      PieceCalls(p, table, plan, n - 1);
      PiecesGrow(p, plan, n - 1);
      OthersLeftThen(p, table, Pieces(p, plan, n), Pieces(p, plan, n - 1), Piece(p, plan, n - 1), n - 1);
    } else {
      assert p[..0] == [];
    }
  }

  /** Exactly the fitting calls are gone: those of the new caller are the other ones of
      the old, in order, and none comes out of a body. */
  lemma FittingCallsGone(p: seq<Cmd>, table: Table, plan: Plan, pure: set<nat>)
    requires Plans(p, table, plan) && forall f :: f in table ==> Leaf(table[f], pure)
    ensures CallsOf(Inlined(p, plan)) == Unfitting(table, p)
  {
    assert Quiet(table);
    PrefixCalls(p, table, plan, |p|);
    assert p[..|p|] == p;
  }
}
