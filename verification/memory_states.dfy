/** Abstract memory states of the memory-safety analysis and their merge. */
module MemoryStates {

  type Var = nat
  type Alloc = nat

  /** Status of an allocation: live, freed, or freed on some paths only. */
  datatype Status = Allocated | MaybeFreed | Freed

  /** What variables may point to, what is known about each allocation, and which
      allocations have escaped. */
  datatype State = State(pt: map<Var, set<Alloc>>, freed: map<Alloc, Status>, escaped: set<Alloc>)

  function MergeFreed(x: Status, y: Status): Status {
    if x == y then x else MaybeFreed
  }

  /** The order a comment gives the statuses: a live allocation lies below one freed
      on some paths, which lies below a freed one. */
  predicate CommentedLeq(x: Status, y: Status) {
    x == y || x.Allocated? || y.Freed?
  }

  ghost predicate CommentedLub(x: Status, y: Status, z: Status) {
    CommentedLeq(x, z) && CommentedLeq(y, z) && forall u :: CommentedLeq(x, u) && CommentedLeq(y, u) ==> CommentedLeq(z, u)
  }

  /** The merge is the least upper bound in that order exactly if both sides are
      freed or neither is. */
  lemma MergeMeetsComment(x: Status, y: Status)
    ensures CommentedLub(x, y, MergeFreed(x, y)) <==> (x.Freed? <==> y.Freed?)
  {
    if x.Freed? && !y.Freed? {
      assert !CommentedLeq(x, MergeFreed(x, y));
    }
  }

  /** A live and a freed allocation merge to one that is not above the freed one. */
  lemma MergeBelowFreed()
    ensures MergeFreed(Allocated, Freed) == MaybeFreed && !CommentedLub(Allocated, Freed, MaybeFreed)
    ensures MergeFreed(MaybeFreed, Freed) == MaybeFreed && !CommentedLub(MaybeFreed, Freed, MaybeFreed)
  {
    assert !CommentedLeq(Freed, MaybeFreed);
  }

  /** Merge of `o` into a copy of `s`: a key only one of them has keeps its value. */
  function Merge(s: State, o: State): State {
    State(map v | v in s.pt.Keys + o.pt.Keys ::
            (if v in s.pt then s.pt[v] else {}) + (if v in o.pt then o.pt[v] else {}),
          map a | a in s.freed.Keys + o.freed.Keys ::
            MergeFreed(if a in s.freed then s.freed[a] else o.freed[a], if a in o.freed then o.freed[a] else s.freed[a]),
          s.escaped + o.escaped)
  }

  // ---- a state as a set of facts ----

  datatype Fact = Tracked(v: Var) | Points(v: Var, a: Alloc) | MayLive(a: Alloc) | MayFreed(a: Alloc) | Escaped(a: Alloc)

  ghost predicate Says(s: State, f: Fact) {
    match f
    case Tracked(v) => v in s.pt
    case Points(v, a) => v in s.pt && a in s.pt[v]
    case MayLive(a) => a in s.freed && s.freed[a] != Freed
    case MayFreed(a) => a in s.freed && s.freed[a] != Allocated
    case Escaped(a) => a in s.escaped
  }

  ghost function Facts(s: State): set<Fact> {
    (set v | v in s.pt :: Tracked(v)) + (set v, a | v in s.pt && a in s.pt[v] :: Points(v, a))
      + (set a | a in s.freed && s.freed[a] != Freed :: MayLive(a)) + (set a | a in s.freed && s.freed[a] != Allocated :: MayFreed(a))
      + (set a | a in s.escaped :: Escaped(a))
  }

  lemma FactsAre(s: State, f: Fact)
    ensures f in Facts(s) <==> Says(s, f)
  {
  }

  /** Merging is union. */
  lemma MergeSays(s: State, o: State, f: Fact)
    ensures Says(Merge(s, o), f) <==> Says(s, f) || Says(o, f)
  {
  }

  lemma FactsMerge(s: State, o: State)
    ensures Facts(Merge(s, o)) == Facts(s) + Facts(o)
  {
    forall f
      ensures f in Facts(Merge(s, o)) <==> f in Facts(s) + Facts(o)
    {
      FactsAre(Merge(s, o), f);
      FactsAre(s, f);
      FactsAre(o, f);
      MergeSays(s, o, f);
    }
  }

  /** A state is determined by its facts. */
  lemma SameFacts(s: State, o: State)
    requires Facts(s) == Facts(o)
    ensures s == o
  {
    forall f
      ensures Says(s, f) <==> Says(o, f)
    {
      FactsAre(s, f);
      FactsAre(o, f);
    }
    SamePointers(s, o);
    SameStatus(s, o);
    assert s.escaped == o.escaped by {
      forall a
        ensures a in s.escaped <==> a in o.escaped
      {
        assert Says(s, Escaped(a)) <==> Says(o, Escaped(a));
      }
    }
  }

  lemma SamePointers(s: State, o: State)
    requires forall f :: Says(s, f) <==> Says(o, f)
    ensures s.pt == o.pt
  {
    forall v
      ensures v in s.pt <==> v in o.pt
      ensures v in s.pt ==> s.pt[v] == o.pt[v]
    {
      assert Says(s, Tracked(v)) <==> Says(o, Tracked(v));
      if v in s.pt {
        forall a
          ensures a in s.pt[v] <==> a in o.pt[v]
        {
          assert Says(s, Points(v, a)) <==> Says(o, Points(v, a));
        }
      }
    }
  }

  lemma SameStatus(s: State, o: State)
    requires forall f :: Says(s, f) <==> Says(o, f)
    ensures s.freed == o.freed
  {
    forall a
      ensures a in s.freed <==> a in o.freed
      ensures a in s.freed ==> s.freed[a] == o.freed[a]
    {
      assert Says(s, MayLive(a)) <==> Says(o, MayLive(a));
      assert Says(s, MayFreed(a)) <==> Says(o, MayFreed(a));
    }
  }

  // ---- the lattice ----

  /** `s` lies below `o`: merging it in adds nothing. */
  predicate Below(s: State, o: State) { Merge(o, s) == o }

  lemma BelowIsSubset(s: State, o: State)
    ensures Below(s, o) <==> Facts(s) <= Facts(o)
  {
    FactsMerge(o, s);
    if Facts(s) <= Facts(o) {
      assert Facts(o) + Facts(s) == Facts(o);
      SameFacts(Merge(o, s), o);
    }
  }

  /** The merge is a join: commutative, associative, idempotent, and the least upper bound. */
  lemma MergeIsJoin(s: State, o: State, r: State)
    ensures Merge(s, o) == Merge(o, s)
    ensures Merge(Merge(s, o), r) == Merge(s, Merge(o, r))
    ensures Merge(s, s) == s
    ensures Below(s, Merge(s, o)) && Below(o, Merge(s, o))
    ensures Below(s, r) && Below(o, r) ==> Below(Merge(s, o), r)
  {
    FactsMerge(s, o);
    FactsMerge(o, s);
    FactsMerge(o, r);
    FactsMerge(Merge(s, o), r);
    FactsMerge(s, Merge(o, r));
    FactsMerge(s, s);
    assert Facts(s) + Facts(o) == Facts(o) + Facts(s);
    SameFacts(Merge(s, o), Merge(o, s));
    assert (Facts(s) + Facts(o)) + Facts(r) == Facts(s) + (Facts(o) + Facts(r));
    SameFacts(Merge(Merge(s, o), r), Merge(s, Merge(o, r)));
    assert Facts(s) + Facts(s) == Facts(s);
    SameFacts(Merge(s, s), s);
    BelowIsSubset(s, Merge(s, o));
    BelowIsSubset(o, Merge(s, o));
    BelowIsSubset(s, r);
    BelowIsSubset(o, r);
    BelowIsSubset(Merge(s, o), r);
  }

  lemma BelowOrders(s: State, o: State, r: State)
    ensures Below(s, s)
    ensures Below(s, o) && Below(o, r) ==> Below(s, r)
    ensures Below(s, o) && Below(o, s) ==> s == o
  {
    BelowIsSubset(s, s);
    BelowIsSubset(s, o);
    BelowIsSubset(o, r);
    BelowIsSubset(s, r);
    BelowIsSubset(o, s);
    if Facts(s) == Facts(o) {
      SameFacts(s, o);
    }
  }

  /** Merging something new makes the set of facts strictly larger. */
  lemma MergeGrows(s: State, o: State)
    requires Merge(s, o) != s
    ensures Facts(s) < Facts(Merge(s, o))
  {
    FactsMerge(s, o);
    if Facts(Merge(s, o)) == Facts(s) {
      SameFacts(Merge(s, o), s);
    }
  }
}
