/** Induction-variable strength reduction: an address recomputed from a loop
    counter becomes a pointer set up before the loop and advanced at its bottom. */
module StrengthReduction {
  import opened IL
  import opened UseCounts
  import opened AddressTrace

  // ---- candidate loops ----

  predicate JumpAt(p: seq<Cmd>, j: nat) { j < |p| && IsJump(p[j]) }

  /** Does the jump at `j` land in the loop? */
  predicate JumpsInto(p: seq<Cmd>, start: nat, back: nat, j: nat)
    requires JumpAt(p, j)
  {
    TargetIn(p, p[j].target).Some? && InLoop(start, back, TargetIn(p, p[j].target).value)
  }

  predicate InLoop(start: nat, back: nat, i: nat) { start <= i <= back }

  /** `start` is a label whose only jump is the one at `back`, and the body is one
      straight line apart from jumps out of the loop. */
  ghost predicate IsLoop(p: seq<Cmd>, start: nat, back: nat) {
    && start < back < |p|
    && p[start].Label? && IsJump(p[back]) && TargetIn(p, p[back].target) == Some(start)
    && (forall j: nat :: JumpAt(p, j) && p[j].target == p[start].name ==> j == back)
    && (forall j :: start < j <= back ==> !p[j].Label?)
    && (forall j: nat :: start < j < back && JumpAt(p, j) ==> !JumpsInto(p, start, back, j))
  }

  method CheckLoop(p: seq<Cmd>, back: nat) returns (start: Option<nat>)
    requires back < |p|
    ensures start.Some? ==> IsLoop(p, start.value, back)
    ensures start.None? ==> forall s: nat :: !IsLoop(p, s, back)
  {
    if !IsJump(p[back]) || TargetIn(p, p[back].target).None? || TargetIn(p, p[back].target).value >= back {
      return None;
    }
    var s := TargetIn(p, p[back].target).value;
    for j := 0 to |p|
      invariant forall i: nat :: JumpAt(p, i) && i < j && p[i].target == p[s].name ==> i == back
    {
      if JumpAt(p, j) && p[j].target == p[s].name && j != back {
        return None;
      }
    }
    for j := s + 1 to back + 1
      invariant forall i :: s < i < j ==> !p[i].Label?
      invariant forall i: nat :: s < i < j && i < back && JumpAt(p, i) ==> !JumpsInto(p, s, back, i)
    {
      if p[j].Label? {
        return None;
      }
      if j != back && JumpAt(p, j) && JumpsInto(p, s, back, j) {
        return None;
      }
    }
    return Some(s);
  }

  // ---- the tables of a loop body ----

  /** Matches `t = v + literal`. */
  function AddedLiteral(c: Cmd, v: Value): Option<int> {
    if c.Op? && c.code == Add && |c.ins| == 2 && |c.outs| == 1 then
      if c.ins[0] == Temp(v) && c.ins[1].Lit? then Some(c.ins[1].n)
      else if c.ins[1] == Temp(v) && c.ins[0].Lit? then Some(c.ins[0].n)
      else None
    else None
  }

  /** `v` is a basic induction variable: its only definition in the body is a copy
      of `v + literal`.  Returns the literal. */
  function IvStep(p: seq<Cmd>, start: nat, back: nat, defOf: map<Value, nat>, v: Value): Option<int>
    requires start < back <= |p| && forall w :: w in defOf ==> defOf[w] < |p|
  {
    if v !in defOf || DefCount(p[start + 1..back], v) != 1 then None
    else
      var c := p[defOf[v]];
      if c.Set? && c.out == Temp(v) && c.arg.Temp? && c.arg.v in defOf
      then AddedLiteral(p[defOf[c.arg.v]], v)
      else None
  }

  ghost predicate TablesOf(p: seq<Cmd>, start: nat, back: nat, t: Tables)
    requires start < back <= |p|
  {
    && LastDefs(p, start + 1, back, t.defOf)
    && (forall v :: v in t.ivs <==> IvStep(p, start, back, t.defOf, v).Some?)
    && (forall v :: v in t.ivs ==> IvStep(p, start, back, t.defOf, v) == Some(t.ivs[v]))
  }

  method BuildTables(p: seq<Cmd>, start: nat, back: nat) returns (t: Tables)
    requires start < back <= |p|
    ensures TablesOf(p, start, back, t) && Fits(p, t)
  {
    var defOf := LastDefinitions(p, start + 1, back);
    var ivs := BasicIvs(p, start, back, defOf);
    t := Tables(defOf, ivs);
  }

  method BasicIvs(p: seq<Cmd>, start: nat, back: nat, defOf: map<Value, nat>) returns (ivs: map<Value, int>)
    requires start < back <= |p| && forall w :: w in defOf ==> defOf[w] < |p|
    ensures forall v :: v in ivs <==> IvStep(p, start, back, defOf, v).Some?
    ensures forall v :: v in ivs ==> IvStep(p, start, back, defOf, v) == Some(ivs[v])
  {
    ivs := map[];
    var todo := defOf.Keys;
    while todo != {}
      invariant todo <= defOf.Keys
      invariant forall v :: v in ivs <==> v in defOf && v !in todo && IvStep(p, start, back, defOf, v).Some?
      invariant forall v :: v in ivs ==> IvStep(p, start, back, defOf, v) == Some(ivs[v])
    {
      var v :| v in todo;
      todo := todo - {v};
      var inc := IvStep(p, start, back, defOf, v);
      if inc.Some? {
        ivs := ivs[v := inc.value];
      }
    }
  }

  // ---- accepting a memory operation ----

  /** The address a load or store goes through. */
  function AddressOf(c: Cmd): Option<Value> {
    if c.Op? && ((c.code == ReadAt && |c.ins| == 1) || (c.code == SetAt && |c.ins| == 2)) && c.ins[0].Temp?
    then Some(c.ins[0].v) else None
  }

  /** One accepted operation: the address `addr` of the load or store at `at`
      follows the induction variable `iv`, `stride` per iteration. */
  datatype Reduction = Reduction(start: nat, back: nat, t: Tables, at: nat, addr: Value, iv: Value, stride: int)

  ghost predicate Accepted(p: seq<Cmd>, r: Reduction) {
    && IsLoop(p, r.start, r.back) && TablesOf(p, r.start, r.back, r.t) && Fits(p, r.t)
    && AcceptedAt(p, r)
  }

  predicate AcceptedAt(p: seq<Cmd>, r: Reduction)
    requires r.start < r.back < |p| && Fits(p, r.t)
  {
    && r.start < r.at < r.back && AddressOf(p[r.at]) == Some(r.addr)
    && r.addr in r.t.defOf && DefCount(p[r.start + 1..r.back], r.addr) == 1 && UseCount(p, r.addr) == 1
    && FollowsIv(r, Trace(p, r.t, Temp(r.addr), 0))
    && ChainMovable(p, Chain(p, r.t, Temp(r.addr), 0), r.t.defOf[r.iv])
  }

  predicate FollowsIv(r: Reduction, tr: Stride) {
    && tr.Some? && tr.value.1 != 0 && tr.value.0 == Temp(r.iv)
    && r.iv in r.t.ivs && r.iv in r.t.defOf && r.stride == tr.value.1 * r.t.ivs[r.iv]
  }

  /** Every chain command comes before the induction variable's update, and what
      it computes is used exactly once in the function. */
  predicate ChainMovable(p: seq<Cmd>, chain: set<nat>, u: nat) {
    forall d :: d in chain ==> d < u && d < |p| && forall o :: o in Defs(p[d]) ==> UseCount(p, o) == 1
  }

  /** Can the operation at `j` be reduced? */
  method TryAt(p: seq<Cmd>, start: nat, back: nat, t: Tables, j: nat) returns (r: Option<Reduction>)
    requires start < back < |p| && Fits(p, t) && start < j < back
    ensures r.Some? ==> r.value.start == start && r.value.back == back && r.value.t == t && AcceptedAt(p, r.value)
    ensures r.None? ==> NoneAt(p, start, back, t, j)
  {
    var a := AddressOf(p[j]);
    if a.Some? && a.value in t.defOf {
      var tr := Trace(p, t, Temp(a.value), 0);
      if tr.Some? && tr.value.0.Temp? && tr.value.0.v in t.ivs {
        var c := Reduction(start, back, t, j, a.value, tr.value.0.v, tr.value.1 * t.ivs[tr.value.0.v]);
        if AcceptedAt(p, c) {
          return Some(c);
        }
      }
    }
    return None;
  }

  ghost predicate NoneAt(p: seq<Cmd>, start: nat, back: nat, t: Tables, j: nat)
    requires start < back < |p| && Fits(p, t)
  {
    forall addr, iv, stride :: !AcceptedAt(p, Reduction(start, back, t, j, addr, iv, stride))
  }

  lemma TablesUnique(p: seq<Cmd>, start: nat, back: nat, t1: Tables, t2: Tables)
    requires start < back <= |p| && TablesOf(p, start, back, t1) && TablesOf(p, start, back, t2)
    ensures t1 == t2
  {
    LastDefsUnique(p, start + 1, back, t1.defOf, t2.defOf);
    assert t1.ivs == t2.ivs by {
      assert forall v :: v in t1.ivs <==> v in t2.ivs;
    }
  }

  ghost predicate NoneBelow(p: seq<Cmd>, start: nat, back: nat, t: Tables, hi: nat)
    requires start < back < |p| && Fits(p, t)
  {
    forall i: nat :: start < i < hi ==> NoneAt(p, start, back, t, i)
  }

  lemma NothingAccepted(p: seq<Cmd>, start: nat, back: nat, t: Tables)
    requires start < back < |p| && Fits(p, t) && TablesOf(p, start, back, t) && NoneBelow(p, start, back, t, back)
    ensures forall c :: Accepted(p, c) ==> c.start != start || c.back != back
  {
    forall c | Accepted(p, c)
      ensures c.start != start || c.back != back
    {
      if c.start == start && c.back == back {
        TablesUnique(p, start, back, t, c.t);
        NotAcceptedHere(p, start, back, t, c);
      }
    }
  }

  lemma NotAcceptedHere(p: seq<Cmd>, start: nat, back: nat, t: Tables, c: Reduction)
    requires start < back < |p| && Fits(p, t) && NoneBelow(p, start, back, t, back)
    requires c.start == start && c.back == back && c.t == t
    ensures !AcceptedAt(p, c)
  {
    assert c == Reduction(start, back, t, c.at, c.addr, c.iv, c.stride);
    if start < c.at < back {
      assert NoneAt(p, start, back, t, c.at);
    }
  }

  /** The first operation of the loop that can be reduced, if any. */
  method FindInLoop(p: seq<Cmd>, start: nat, back: nat) returns (r: Option<Reduction>)
    requires IsLoop(p, start, back)
    ensures r.Some? ==> Accepted(p, r.value)
    ensures r.None? ==> forall c :: Accepted(p, c) ==> c.start != start || c.back != back
  {
    var t := BuildTables(p, start, back);
    r := FindWith(p, start, back, t);
    if r.None? {
      NothingAccepted(p, start, back, t);
    }
  }

  method FindWith(p: seq<Cmd>, start: nat, back: nat, t: Tables) returns (r: Option<Reduction>)
    requires start < back < |p| && Fits(p, t)
    ensures r.Some? ==> r.value.start == start && r.value.back == back && r.value.t == t && AcceptedAt(p, r.value)
    ensures r.None? ==> NoneBelow(p, start, back, t, back)
  {
    for j := start + 1 to back
      invariant NoneBelow(p, start, back, t, j)
    {
      r := TryAt(p, start, back, t, j);
      if r.Some? {
        return;
      }
      OneMoreNone(p, start, back, t, j);
    }
    return None;
  }

  lemma OneMoreNone(p: seq<Cmd>, start: nat, back: nat, t: Tables, j: nat)
    requires start < back < |p| && Fits(p, t) && NoneBelow(p, start, back, t, j) && NoneAt(p, start, back, t, j)
    ensures NoneBelow(p, start, back, t, j + 1)
  {
  }

  /** Scan the function for a loop with an operation to reduce. */
  method FindReduction(p: seq<Cmd>) returns (r: Option<Reduction>)
    ensures r.Some? ==> Accepted(p, r.value)
    ensures r.None? ==> forall c :: !Accepted(p, c)
  {
    for back := 0 to |p|
      invariant forall c :: Accepted(p, c) ==> c.back >= back
    {
      var start := CheckLoop(p, back);
      if start.Some? {
        r := FindInLoop(p, start.value, back);
        if r.Some? {
          return;
        }
      }
    }
    return None;
  }

  // ---- the rewritten function ----

  function Select(p: seq<Cmd>, s: set<nat>, lo: nat, hi: nat): seq<Cmd>
    requires hi <= |p|
    decreases hi
  {
    if hi <= lo then [] else Select(p, s, lo, hi - 1) + (if hi - 1 in s then [p[hi - 1]] else [])
  }

  function Omit(p: seq<Cmd>, s: set<nat>, lo: nat, hi: nat): seq<Cmd>
    requires hi <= |p|
    decreases hi
  {
    if hi <= lo then [] else Omit(p, s, lo, hi - 1) + (if hi - 1 in s then [] else [p[hi - 1]])
  }

  /** How many indices of `s` lie in `lo..hi`. */
  function Within(s: set<nat>, lo: nat, hi: nat): nat
    decreases hi
  {
    if hi <= lo then 0 else Within(s, lo, hi - 1) + (if hi - 1 in s then 1 else 0)
  }

  function Advance(addr: Value, stride: int, tmp: Value): seq<Cmd> {
    [Op(Add, [Temp(addr), Lit(stride)], [Temp(tmp)]), Set(Temp(addr), Temp(tmp))]
  }

  /** The chain moves in front of the loop's label; the pointer advances before
      the backward jump. */
  function Rewritten(p: seq<Cmd>, start: nat, back: nat, s: set<nat>, addr: Value, stride: int, tmp: Value): seq<Cmd>
    requires start < back < |p|
  {
    p[..start] + Select(p, s, start + 1, back) + [p[start]] + Omit(p, s, start + 1, back)
      + Advance(addr, stride, tmp) + p[back..]
  }

  /** The pass's own construction, one command at a time. */
  method Rewrite(p: seq<Cmd>, start: nat, back: nat, s: set<nat>, addr: Value, stride: int, tmp: Value) returns (q: seq<Cmd>)
    requires start < back < |p|
    ensures q == Rewritten(p, start, back, s, addr, stride, tmp)
  {
    var moved: seq<Cmd> := [];
    for j := start + 1 to back
      invariant moved == Select(p, s, start + 1, j)
    {
      if j in s {
        moved := moved + [p[j]];
      }
    }
    q := [];
    for i := 0 to |p|
      invariant q == RewrittenUpTo(p, start, back, s, addr, stride, tmp, i)
    {
      if i == start {
        q := q + moved + [p[i]];
      } else if start < i < back && i in s {
      } else {
        if i == back {
          q := q + Advance(addr, stride, tmp);
        }
        q := q + [p[i]];
      }
      assert p[..i + 1] == p[..i] + [p[i]];
      assert i >= back ==> p[back..i + 1] == p[back..i] + [p[i]];
    }
    assert p[back..|p|] == p[back..];
  }

  ghost function RewrittenUpTo(p: seq<Cmd>, start: nat, back: nat, s: set<nat>, addr: Value, stride: int, tmp: Value, i: nat): seq<Cmd>
    requires start < back < |p| && i <= |p|
  {
    if i <= start then p[..i]
    else
      p[..start] + Select(p, s, start + 1, back) + [p[start]] + Omit(p, s, start + 1, if i < back then i else back)
        + (if i > back then Advance(addr, stride, tmp) + p[back..i] else [])
  }
}
