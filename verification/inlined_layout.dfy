/** Where the commands and labels of a caller and of its splices are in the inlined code. */
module InlinedLayout {
  import opened IL
  import opened Labels
  import opened InlineBodies
  import opened InlineCalls

  /** Where the code of command `i` begins. */
  function Start(p: seq<Cmd>, plan: Plan, i: nat): nat
    requires i <= |p| == |plan|
  {
    |Flat(Pieces(p, plan, i))|
  }

  lemma AppendAt(a: seq<Cmd>, b: seq<Cmd>, t: nat)
    requires t < |b|
    ensures |a| + t < |a + b| && (a + b)[|a| + t] == b[t]
  {
  }

  lemma PrefixAt(a: seq<Cmd>, b: seq<Cmd>, t: nat)
    requires t < |a|
    ensures t < |a + b| && (a + b)[t] == a[t]
  {
  }

  lemma NextStart(p: seq<Cmd>, plan: Plan, i: nat)
    requires i < |p| == |plan|
    ensures Flat(Pieces(p, plan, i + 1)) == Flat(Pieces(p, plan, i)) + Piece(p, plan, i)
    ensures Start(p, plan, i + 1) == Start(p, plan, i) + |Piece(p, plan, i)|
  {
    PiecesPrefix(p, plan, i, i + 1);
  }

  lemma {:induction false} FlatAt(ss: seq<seq<Cmd>>, i: nat, t: nat)
    requires i < |ss| && t < |ss[i]|
    ensures |Flat(ss[..i])| + t < |Flat(ss)| && Flat(ss)[|Flat(ss[..i])| + t] == ss[i][t]
    decreases |ss|
  {
    var rest, last := ss[..|ss| - 1], ss[|ss| - 1];
    if i < |ss| - 1 {
      FlatAt(rest, i, t);
      assert rest[..i] == ss[..i];
      PrefixAt(Flat(rest), last, |Flat(ss[..i])| + t);
    } else {
      AppendAt(Flat(rest), last, t);
    }
  }

  lemma PiecesPrefix(p: seq<Cmd>, plan: Plan, i: nat, n: nat)
    requires i <= n <= |p| == |plan|
    ensures Pieces(p, plan, n)[..i] == Pieces(p, plan, i)
  {
  }

  lemma FlatPiece(ss: seq<seq<Cmd>>, i: nat, t: nat, x: seq<Cmd>)
    requires i < |ss| && ss[i] == x && t < |x|
    ensures |Flat(ss[..i])| + t < |Flat(ss)| && Flat(ss)[|Flat(ss[..i])| + t] == x[t]
  {
    FlatAt(ss, i, t);
  }

  lemma PieceInside(p: seq<Cmd>, plan: Plan, i: nat, n: nat, t: nat)
    requires i < n <= |p| == |plan| && t < |Piece(p, plan, i)|
    ensures Start(p, plan, i) + t < |Flat(Pieces(p, plan, n))| && Flat(Pieces(p, plan, n))[Start(p, plan, i) + t] == Piece(p, plan, i)[t]
  {
    PiecesStart(p, plan, i, n);
    FlatPiece(Pieces(p, plan, n), i, t, Piece(p, plan, i));
  }

  /** A command that is not replaced is at its new position, and the next one follows. */
  lemma KeptAt(p: seq<Cmd>, plan: Plan, i: nat)
    requires i < |p| == |plan| && plan[i].None?
    ensures Start(p, plan, i) < |Inlined(p, plan)| && Inlined(p, plan)[Start(p, plan, i)] == p[i]
    ensures Start(p, plan, i + 1) == Start(p, plan, i) + 1
  {
    PieceInside(p, plan, i, |p|, 0);
    NextStart(p, plan, i);
  }

  lemma {:induction false} CloneInside(s: Splice, ret: Operand, j: nat, n: nat, t: nat)
    requires j < n <= |s.b.ops| && t < |Clone(s, ret, s.b.ops[j])|
    ensures |Clones(s, ret, j + 1)| == |Clones(s, ret, j)| + |Clone(s, ret, s.b.ops[j])|
    ensures |Clones(s, ret, j)| + t < |Clones(s, ret, n)|
    ensures Clones(s, ret, n)[|Clones(s, ret, j)| + t] == Clone(s, ret, s.b.ops[j])[t]
    decreases n
  {
    if j < n - 1 {
      CloneInside(s, ret, j, n - 1, t);
    }
  }

  /** A call site that is replaced. */
  ghost predicate Site(p: seq<Cmd>, table: Table, plan: Plan, i: nat) {
    Plans(p, table, plan) && i < |p| && plan[i].Some? && CalleeOf(table, p[i]) == Some(plan[i].value.b)
      && |plan[i].value.binds| == |p[i].args|
  }

  lemma SiteOrKept(p: seq<Cmd>, table: Table, plan: Plan, i: nat)
    requires Plans(p, table, plan) && i < |p|
    ensures CalleeOf(table, p[i]).Some? <==> plan[i].Some?
    ensures plan[i].Some? ==> Site(p, table, plan, i)
  {
    assert PlanAt(p, table, plan, i);
  }

  /** Position of body command `j` of the splice at `i`. */
  function BodyPos(p: seq<Cmd>, plan: Plan, i: nat, j: nat): nat
    requires i < |p| == |plan| && p[i].Call? && |p[i].ret| == 1 && plan[i].Some? && j <= |plan[i].value.b.ops|
  {
    Start(p, plan, i) + |p[i].args| + |Clones(plan[i].value, p[i].ret[0], j)|
  }

  lemma BindingAt(p: seq<Cmd>, table: Table, plan: Plan, i: nat, k: nat)
    requires Site(p, table, plan, i) && k < |p[i].args|
    ensures Start(p, plan, i) + k < |Inlined(p, plan)|
    ensures Inlined(p, plan)[Start(p, plan, i) + k] == Set(Temp(plan[i].value.binds[k]), p[i].args[k])
  {
    PieceInside(p, plan, i, |p|, k);
  }

  lemma BodyAt(p: seq<Cmd>, table: Table, plan: Plan, i: nat, j: nat, t: nat)
    requires Site(p, table, plan, i) && j < |plan[i].value.b.ops|
    requires t < |Clone(plan[i].value, p[i].ret[0], plan[i].value.b.ops[j])|
    ensures BodyPos(p, plan, i, j) + t < |Inlined(p, plan)|
    ensures Inlined(p, plan)[BodyPos(p, plan, i, j) + t] == Clone(plan[i].value, p[i].ret[0], plan[i].value.b.ops[j])[t]
    ensures BodyPos(p, plan, i, j + 1) == BodyPos(p, plan, i, j) + |Clone(plan[i].value, p[i].ret[0], plan[i].value.b.ops[j])|
  {
    var s, ret := plan[i].value, p[i].ret[0];
    InBlock(s, p[i].args, ret, j, t);
    BlockInside(p, table, plan, i, |p[i].args| + |Clones(s, ret, j)| + t);
  }

  lemma BlockInside(p: seq<Cmd>, table: Table, plan: Plan, i: nat, t: nat)
    requires Site(p, table, plan, i) && t < |Block(plan[i].value, p[i].args, p[i].ret[0])|
    ensures Start(p, plan, i) + t < |Inlined(p, plan)|
    ensures Inlined(p, plan)[Start(p, plan, i) + t] == Block(plan[i].value, p[i].args, p[i].ret[0])[t]
  {
    PieceInside(p, plan, i, |p|, t);
  }

  lemma InBlock(s: Splice, args: seq<Operand>, ret: Operand, j: nat, t: nat)
    requires |args| == |s.binds| && j < |s.b.ops| && t < |Clone(s, ret, s.b.ops[j])|
    ensures |Clones(s, ret, j + 1)| == |Clones(s, ret, j)| + |Clone(s, ret, s.b.ops[j])|
    ensures |args| + |Clones(s, ret, j)| + t < |Block(s, args, ret)|
    ensures Block(s, args, ret)[|args| + |Clones(s, ret, j)| + t] == Clone(s, ret, s.b.ops[j])[t]
  {
    CloneInside(s, ret, j, |s.b.ops|, t);
    var cs := Clones(s, ret, |s.b.ops|);
    AppendAt(Bindings(s, args), cs, |Clones(s, ret, j)| + t);
    PrefixAt(Bindings(s, args) + cs, [Label(s.end)], |args| + |Clones(s, ret, j)| + t);
  }

  lemma EndAt(p: seq<Cmd>, table: Table, plan: Plan, i: nat)
    requires Site(p, table, plan, i)
    ensures 1 <= Start(p, plan, i + 1) <= |Inlined(p, plan)|
    ensures Inlined(p, plan)[Start(p, plan, i + 1) - 1] == Label(plan[i].value.end)
  {
    PieceInside(p, plan, i, |p|, |Piece(p, plan, i)| - 1);
    NextStart(p, plan, i);
  }

  lemma WholeLength(p: seq<Cmd>, plan: Plan)
    requires |p| == |plan|
    ensures Start(p, plan, |p|) == |Inlined(p, plan)|
  {
  }

  // ---- labels ----

  /** Every label of the body has a fresh name. */
  ghost predicate LabelsCovered(s: Splice) {
    forall c :: c in s.b.ops && LabelOf(c).Some? ==> LabelOf(c).value in s.labels
  }

  function NewPlace(p: seq<Cmd>, plan: Plan, t: Option<nat>): Option<nat>
    requires |p| == |plan| && (t.Some? ==> t.value <= |p|)
  {
    if t.Some? then Some(Start(p, plan, t.value)) else None
  }

  lemma CloneTarget(s: Splice, ret: Operand, c: Cmd, l: nat)
    requires Injective(s.labels) && l in s.labels && (LabelOf(c).Some? ==> LabelOf(c).value in s.labels)
    ensures TargetIn(Clone(s, ret, c), s.labels[l]) == if c == Label(l) then Some(0) else None
  {
    if c.Label? {
      LastLands([], CloneCmd(s, c), s.labels[l]);
      assert [] + [CloneCmd(s, c)] == [CloneCmd(s, c)];
    } else {
      NoTargetIn(Clone(s, ret, c), s.labels[l]);
    }
  }

  lemma {:induction false} ClonesTargets(s: Splice, ret: Operand, n: nat, l: nat)
    requires n <= |s.b.ops| && Injective(s.labels) && l in s.labels
    requires LabelsCovered(s)
    ensures TargetIn(Clones(s, ret, n), s.labels[l]) ==
            if TargetIn(s.b.ops[..n], l).Some? then Some(|Clones(s, ret, TargetIn(s.b.ops[..n], l).value)|) else None
  {
    if n > 0 {
      ClonesTargets(s, ret, n - 1, l);
      var c := s.b.ops[n - 1];
      assert c in s.b.ops;
      assert s.b.ops[..n] == s.b.ops[..n - 1] + [c];
      CloneTarget(s, ret, c, l);
      TargetSplits(Clones(s, ret, n - 1), Clone(s, ret, c), s.labels[l]);
      LastLands(s.b.ops[..n - 1], c, l);
    }
  }

  /** The labels of a block are its splice's own. */
  lemma {:induction false} ClonesOwn(s: Splice, ret: Operand, n: nat, l: nat)
    requires n <= |s.b.ops| && TargetIn(Clones(s, ret, n), l).Some? && LabelsCovered(s)
    ensures l in s.labels.Values
  {
    if n > 0 {
      var c := s.b.ops[n - 1];
      TargetSplits(Clones(s, ret, n - 1), Clone(s, ret, c), l);
      if TargetIn(Clone(s, ret, c), l).None? {
        ClonesOwn(s, ret, n - 1, l);
      } else {
        assert c in s.b.ops;
        CloneOwns(s, ret, c, l);
      }
    }
  }

  lemma CloneOwns(s: Splice, ret: Operand, c: Cmd, l: nat)
    requires TargetIn(Clone(s, ret, c), l).Some? && (LabelOf(c).Some? ==> LabelOf(c).value in s.labels)
    ensures l in s.labels.Values
  {
    var i := TargetIn(Clone(s, ret, c), l).value;
    assert Clone(s, ret, c)[i] == Label(l);
    assert c.Label? && s.labels[c.name] == l;
  }

  lemma BlockTargets(s: Splice, args: seq<Operand>, ret: Operand, l: nat)
    requires |args| == |s.binds|
    ensures TargetIn(Block(s, args, ret), l) ==
            if l == s.end then Some(|args| + |Clones(s, ret, |s.b.ops|)|)
            else if TargetIn(Clones(s, ret, |s.b.ops|), l).Some? then Some(|args| + TargetIn(Clones(s, ret, |s.b.ops|), l).value)
            else None
  {
    LastLands(Bindings(s, args) + Clones(s, ret, |s.b.ops|), Label(s.end), l);
    BindingsLabelFree(s, args);
    AfterBindings(Bindings(s, args), Clones(s, ret, |s.b.ops|), l);
  }

  lemma BindingsLabelFree(s: Splice, args: seq<Operand>)
    requires |args| == |s.binds|
    ensures LabelFree(Bindings(s, args))
  {
  }

  lemma AfterBindings(a: seq<Cmd>, cs: seq<Cmd>, l: nat)
    requires LabelFree(a)
    ensures TargetIn(a + cs, l) == if TargetIn(cs, l).Some? then Some(|a| + TargetIn(cs, l).value) else None
  {
    TargetSplits(a, cs, l);
    NoTargetIn(a, l);
  }

  lemma PieceOwns(p: seq<Cmd>, table: Table, plan: Plan, values: nat, labels: nat, i: nat, l: nat)
    requires Plans(p, table, plan) && FreshPlan(plan, values, labels) && i < |p| && plan[i].Some?
    requires TargetIn(Piece(p, plan, i), l).Some?
    ensures OwnsLabel(plan, i, l) && l >= labels
  {
    SiteOrKept(p, table, plan, i);
    assert FreshAt(plan, values, labels, i);
    var s := plan[i].value;
    BlockTargets(s, p[i].args, p[i].ret[0], l);
    if l != s.end {
      ClonesOwn(s, p[i].ret[0], |s.b.ops|, l);
    }
  }

  /** Piece `i` holds label `l` only if command `i` is that label. */
  ghost predicate HoldsOwn(ss: seq<seq<Cmd>>, p: seq<Cmd>, l: nat, i: nat) {
    i < |ss| && i < |p| ==> TargetIn(ss[i], l) == if p[i] == Label(l) then Some(0) else None
  }

  ghost predicate AllHoldOwn(ss: seq<seq<Cmd>>, p: seq<Cmd>, l: nat) {
    forall i: nat :: HoldsOwn(ss, p, l, i)
  }

  lemma {:induction false} FlatLabels(ss: seq<seq<Cmd>>, p: seq<Cmd>, l: nat, n: nat)
    requires |ss| == |p| && n <= |p| && AllHoldOwn(ss, p, l)
    ensures TargetIn(Flat(ss[..n]), l) ==
            if TargetIn(p[..n], l).Some? then Some(|Flat(ss[..TargetIn(p[..n], l).value])|) else None
  {
    if n > 0 {
      FlatLabels(ss, p, l, n - 1);
      assert HoldsOwn(ss, p, l, n - 1);
      assert p[..n] == p[..n - 1] + [p[n - 1]] && ss[..n][..n - 1] == ss[..n - 1];
      AppendTargets(Flat(ss[..n - 1]), ss[n - 1], p[..n - 1], p[n - 1], l);
    }
  }

  /** The caller's own labels keep their place relative to its commands. */
  lemma CallerTargets(p: seq<Cmd>, table: Table, plan: Plan, values: nat, labels: nat, l: nat)
    requires Plans(p, table, plan) && FreshPlan(plan, values, labels) && l < labels
    ensures TargetIn(Inlined(p, plan), l) == NewPlace(p, plan, TargetIn(p, l))
  {
    var ss := Pieces(p, plan, |p|);
    PiecesHoldOwn(p, table, plan, values, labels, l);
    FlatLabels(ss, p, l, |p|);
    assert p[..|p|] == p && ss[..|p|] == ss;
    if TargetIn(p, l).Some? {
      PiecesStart(p, plan, TargetIn(p, l).value, |p|);
    }
  }

  lemma PiecesHoldOwn(p: seq<Cmd>, table: Table, plan: Plan, values: nat, labels: nat, l: nat)
    requires Plans(p, table, plan) && FreshPlan(plan, values, labels) && l < labels
    ensures AllHoldOwn(Pieces(p, plan, |p|), p, l)
  {
    var ss := Pieces(p, plan, |p|);
    forall i: nat
      ensures HoldsOwn(ss, p, l, i)
    {
      if i < |p| {
        OwnLabelIn(p, table, plan, values, labels, i, l);
      }
    }
  }

  lemma AppendTargets(a: seq<Cmd>, x: seq<Cmd>, pre: seq<Cmd>, c: Cmd, l: nat)
    requires TargetIn(x, l) == if c == Label(l) then Some(0) else None
    ensures TargetIn(a + x, l) == if c == Label(l) then Some(|a|) else TargetIn(a, l)
    ensures TargetIn(pre + [c], l) == if c == Label(l) then Some(|pre|) else TargetIn(pre, l)
  {
    TargetSplits(a, x, l);
    LastLands(pre, c, l);
  }

  /** Of the caller's labels a piece holds only the one its own command is. */
  lemma OwnLabelIn(p: seq<Cmd>, table: Table, plan: Plan, values: nat, labels: nat, i: nat, l: nat)
    requires Plans(p, table, plan) && FreshPlan(plan, values, labels) && i < |p| && l < labels
    ensures TargetIn(Piece(p, plan, i), l) == if p[i] == Label(l) then Some(0) else None
  {
    SiteOrKept(p, table, plan, i);
    if plan[i].Some? {
      if TargetIn(Piece(p, plan, i), l).Some? {
        PieceOwns(p, table, plan, values, labels, i, l);
      }
    } else {
      LastLands([], p[i], l);
      assert [] + [p[i]] == [p[i]];
    }
  }

  lemma KeptOwnsNothing(p: seq<Cmd>, plan: Plan, values: nat, labels: nat, i: nat, l: nat)
    requires |plan| == |p| && Below(p, values, labels) && i < |p| && plan[i].None? && l >= labels
    ensures TargetIn(Piece(p, plan, i), l).None?
  {
    assert LabelBelow(p[i], labels);
    LastLands([], p[i], l);
    assert [] + [p[i]] == [p[i]];
  }

  ghost predicate AbsentAt(p: seq<Cmd>, plan: Plan, l: nat, j: nat)
    requires |p| == |plan|
  {
    j < |p| ==> TargetIn(Piece(p, plan, j), l).None?
  }

  ghost predicate AbsentElsewhere(p: seq<Cmd>, plan: Plan, l: nat, i: nat)
    requires |p| == |plan|
  {
    forall j: nat :: j != i ==> AbsentAt(p, plan, l, j)
  }

  /** A label of one splice is in no other piece. */
  lemma OnlyHere(p: seq<Cmd>, table: Table, plan: Plan, values: nat, labels: nat, i: nat, l: nat)
    requires Plans(p, table, plan) && FreshPlan(plan, values, labels) && Below(p, values, labels) && OwnsLabel(plan, i, l) && l >= labels
    ensures AbsentElsewhere(p, plan, l, i)
  {
    forall j: nat | j != i
      ensures AbsentAt(p, plan, l, j)
    {
      if j < |p| && TargetIn(Piece(p, plan, j), l).Some? {
        if plan[j].Some? {
          PieceOwns(p, table, plan, values, labels, j, l);
        } else {
          KeptOwnsNothing(p, plan, values, labels, j, l);
        }
      }
    }
  }

  ghost predicate AbsentIn(ss: seq<seq<Cmd>>, l: nat, j: nat) {
    j < |ss| ==> TargetIn(ss[j], l).None?
  }

  ghost predicate OnlyIn(ss: seq<seq<Cmd>>, l: nat, i: nat) {
    forall j: nat :: j != i ==> AbsentIn(ss, l, j)
  }

  lemma {:induction false} FlatTarget(ss: seq<seq<Cmd>>, i: nat, l: nat, t: nat, x: seq<Cmd>)
    requires i < |ss| && ss[i] == x && TargetIn(x, l) == Some(t) && OnlyIn(ss, l, i)
    ensures TargetIn(Flat(ss), l) == Some(|Flat(ss[..i])| + t)
    decreases |ss|
  {
    var rest, last := ss[..|ss| - 1], ss[|ss| - 1];
    TargetSplits(Flat(rest), last, l);
    if i < |rest| {
      forall j: nat | j != i
        ensures AbsentIn(rest, l, j)
      {
        assert AbsentIn(ss, l, j);
      }
      FlatTarget(rest, i, l, t, x);
      assert rest[..i] == ss[..i];
      assert AbsentIn(ss, l, |rest|);
    }
  }

  lemma PiecesTarget(p: seq<Cmd>, plan: Plan, i: nat, n: nat, l: nat, t: nat)
    requires i < n <= |p| == |plan| && TargetIn(Piece(p, plan, i), l) == Some(t)
    requires AbsentElsewhere(p, plan, l, i)
    ensures TargetIn(Flat(Pieces(p, plan, n)), l) == Some(Start(p, plan, i) + t)
  {
    PiecesAbsent(p, plan, i, n, l);
    PiecesStart(p, plan, i, n);
    FlatTarget(Pieces(p, plan, n), i, l, t, Piece(p, plan, i));
  }

  lemma PiecesStart(p: seq<Cmd>, plan: Plan, i: nat, n: nat)
    requires i <= n <= |p| == |plan|
    ensures |Flat(Pieces(p, plan, n)[..i])| == Start(p, plan, i)
  {
    PiecesPrefix(p, plan, i, n);
  }

  lemma PiecesAbsent(p: seq<Cmd>, plan: Plan, i: nat, n: nat, l: nat)
    requires i < n <= |p| == |plan| && AbsentElsewhere(p, plan, l, i)
    ensures OnlyIn(Pieces(p, plan, n), l, i)
  {
    var ss := Pieces(p, plan, n);
    forall j: nat | j != i
      ensures AbsentIn(ss, l, j)
    {
      assert AbsentAt(p, plan, l, j);
    }
  }

  lemma SiteTarget(p: seq<Cmd>, table: Table, plan: Plan, i: nat, l: nat, t: nat)
    requires Site(p, table, plan, i) && TargetIn(Block(plan[i].value, p[i].args, p[i].ret[0]), l) == Some(t)
    requires AbsentElsewhere(p, plan, l, i)
    ensures TargetIn(Inlined(p, plan), l) == Some(Start(p, plan, i) + t)
  {
    PieceTarget(p, table, plan, i, l);
    PiecesTarget(p, plan, i, |p|, l, t);
  }

  lemma PieceTarget(p: seq<Cmd>, table: Table, plan: Plan, i: nat, l: nat)
    requires Site(p, table, plan, i)
    ensures TargetIn(Piece(p, plan, i), l) == TargetIn(Block(plan[i].value, p[i].args, p[i].ret[0]), l)
  {
    assert Piece(p, plan, i) == Block(plan[i].value, p[i].args, p[i].ret[0]);
  }

  /** A splice's returns land on its end label. */
  lemma EndTarget(p: seq<Cmd>, table: Table, plan: Plan, values: nat, labels: nat, i: nat)
    requires Site(p, table, plan, i) && FreshPlan(plan, values, labels) && Below(p, values, labels)
    ensures TargetIn(Inlined(p, plan), plan[i].value.end) == Some(Start(p, plan, i + 1) - 1)
  {
    assert FreshAt(plan, values, labels, i);
    OnlyHere(p, table, plan, values, labels, i, plan[i].value.end);
    EndPlace(p, table, plan, i);
  }

  lemma EndPlace(p: seq<Cmd>, table: Table, plan: Plan, i: nat)
    requires Site(p, table, plan, i) && AbsentElsewhere(p, plan, plan[i].value.end, i)
    ensures TargetIn(Inlined(p, plan), plan[i].value.end) == Some(Start(p, plan, i + 1) - 1)
  {
    var s := plan[i].value;
    BlockTargets(s, p[i].args, p[i].ret[0], s.end);
    SiteTarget(p, table, plan, i, s.end, |p[i].args| + |Clones(s, p[i].ret[0], |s.b.ops|)|);
    SiteEnds(p, table, plan, i);
  }

  lemma SiteEnds(p: seq<Cmd>, table: Table, plan: Plan, i: nat)
    requires Site(p, table, plan, i)
    ensures var s := plan[i].value;
            Start(p, plan, i + 1) == Start(p, plan, i) + |p[i].args| + |Clones(s, p[i].ret[0], |s.b.ops|)| + 1
  {
    NextStart(p, plan, i);
  }

  lemma BlockBodyTargets(s: Splice, args: seq<Operand>, ret: Operand, l: nat)
    requires |args| == |s.binds| && Injective(s.labels) && l in s.labels && s.labels[l] != s.end && TargetIn(s.b.ops, l).Some?
    requires LabelsCovered(s)
    ensures TargetIn(Block(s, args, ret), s.labels[l]) == Some(|args| + |Clones(s, ret, TargetIn(s.b.ops, l).value)|)
  {
    AllClonesTargets(s, ret, l);
    BlockTargets(s, args, ret, s.labels[l]);
  }

  lemma AllClonesTargets(s: Splice, ret: Operand, l: nat)
    requires Injective(s.labels) && l in s.labels && LabelsCovered(s) && TargetIn(s.b.ops, l).Some?
    ensures TargetIn(Clones(s, ret, |s.b.ops|), s.labels[l]) == Some(|Clones(s, ret, TargetIn(s.b.ops, l).value)|)
  {
    ClonesTargets(s, ret, |s.b.ops|, l);
    assert s.b.ops[..|s.b.ops|] == s.b.ops;
  }

  lemma SpliceLabels(plan: Plan, values: nat, labels: nat, i: nat, l: nat)
    requires FreshPlan(plan, values, labels) && i < |plan| && plan[i].Some? && l in plan[i].value.labels
    ensures var s := plan[i].value;
            && Injective(s.labels) && s.labels[l] != s.end && s.labels[l] >= labels && OwnsLabel(plan, i, s.labels[l])
            && LabelsCovered(s)
  {
    assert FreshAt(plan, values, labels, i);
  }

  /** A splice's own jumps land on the clones of their targets. */
  lemma BodyTarget(p: seq<Cmd>, table: Table, plan: Plan, values: nat, labels: nat, i: nat, l: nat)
    requires Site(p, table, plan, i) && FreshPlan(plan, values, labels) && Below(p, values, labels)
    requires l in plan[i].value.labels && TargetIn(plan[i].value.b.ops, l).Some?
    ensures TargetIn(Inlined(p, plan), plan[i].value.labels[l]) == Some(BodyPos(p, plan, i, TargetIn(plan[i].value.b.ops, l).value))
  {
    var s := plan[i].value;
    SpliceLabels(plan, values, labels, i, l);
    BlockBodyTargets(s, p[i].args, p[i].ret[0], l);
    OnlyHere(p, table, plan, values, labels, i, s.labels[l]);
    SiteTarget(p, table, plan, i, s.labels[l], |p[i].args| + |Clones(s, p[i].ret[0], TargetIn(s.b.ops, l).value)|);
  }
}
