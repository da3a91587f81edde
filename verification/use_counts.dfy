/** How often temporaries are used and defined. */
module UseCounts {
  import opened IL

  function Count(ss: seq<seq<Value>>, v: Value): nat {
    if ss == [] then 0 else multiset(ss[|ss| - 1])[v] + Count(ss[..|ss| - 1], v)
  }

  function UseCount(p: seq<Cmd>, v: Value): nat {
    Count(seq(|p|, i requires 0 <= i < |p| => Uses(p[i])), v)
  }

  function DefCount(p: seq<Cmd>, v: Value): nat {
    Count(seq(|p|, i requires 0 <= i < |p| => Defs(p[i])), v)
  }

  predicate SingleUseAndDef(p: seq<Cmd>, t: Value) {
    UseCount(p, t) == 1 && DefCount(p, t) == 1
  }

  lemma {:induction false} CountOnce(ss: seq<seq<Value>>, v: Value, i: nat, j: nat)
    requires i < |ss| && j < |ss| && v in ss[i] && v in ss[j] && Count(ss, v) <= 1
    ensures i == j && multiset(ss[i])[v] == 1
    decreases |ss|
  {
    var n := |ss| - 1;
    assert v in multiset(ss[i]) && v in multiset(ss[j]);
    if i < n && j < n {
      assert ss[..n][i] == ss[i] && ss[..n][j] == ss[j];
      CountOnce(ss[..n], v, i, j);
    } else if i < n {
      CountAtLeast(ss[..n], v, i);
    } else if j < n {
      CountAtLeast(ss[..n], v, j);
    }
  }

  lemma {:induction false} CountAtLeast(ss: seq<seq<Value>>, v: Value, i: nat)
    requires i < |ss| && v in ss[i]
    ensures Count(ss, v) >= 1
    decreases |ss|
  {
    assert v in multiset(ss[i]);
    if i < |ss| - 1 {
      CountAtLeast(ss[..|ss| - 1], v, i);
    }
  }

  lemma OneUse(p: seq<Cmd>, t: Value, i: nat, j: nat)
    requires SingleUseAndDef(p, t) && i < |p| && j < |p| && t in Uses(p[i]) && t in Uses(p[j])
    ensures i == j
  {
    CountOnce(seq(|p|, k requires 0 <= k < |p| => Uses(p[k])), t, i, j);
  }

  lemma OneDef(p: seq<Cmd>, t: Value, i: nat, j: nat)
    requires SingleUseAndDef(p, t) && i < |p| && j < |p| && t in Defs(p[i]) && t in Defs(p[j])
    ensures i == j
  {
    CountOnce(seq(|p|, k requires 0 <= k < |p| => Defs(p[k])), t, i, j);
  }

  predicate UsedAt(p: seq<Cmd>, v: Value, j: nat) { j < |p| && Temp(v) in Inputs(p[j]) }

  lemma UsedOnce(p: seq<Cmd>, t: Value, i: nat, j: nat)
    requires UseCount(p, t) == 1 && UsedAt(p, t, i) && UsedAt(p, t, j)
    ensures i == j && multiset(Uses(p[i]))[t] == 1
  {
    CountOnce(seq(|p|, k requires 0 <= k < |p| => Uses(p[k])), t, i, j);
  }

  // ---- the last definition of each temporary ----

  predicate DefinedAt(p: seq<Cmd>, v: Value, j: nat) { j < |p| && Temp(v) in Outputs(p[j]) }

  /** `defOf` maps exactly the values defined in `lo..hi` to their last definition there. */
  ghost predicate LastDefs(p: seq<Cmd>, lo: nat, hi: nat, defOf: map<Value, nat>) {
    && (forall v :: v in defOf ==> lo <= defOf[v] < hi && DefinedAt(p, v, defOf[v]))
    && (forall v, j: nat :: lo <= j < hi && DefinedAt(p, v, j) ==> v in defOf && j <= defOf[v])
  }

  lemma DefinedOnce(p: seq<Cmd>, lo: nat, hi: nat, v: Value, i: nat, j: nat)
    requires lo <= i < hi <= |p| && lo <= j < hi && DefCount(p[lo..hi], v) == 1 && DefinedAt(p, v, i) && DefinedAt(p, v, j)
    ensures i == j
  {
    var body := p[lo..hi];
    assert body[i - lo] == p[i] && body[j - lo] == p[j];
    assert v in Defs(body[i - lo]) && v in Defs(body[j - lo]);
    CountOnce(seq(|body|, k requires 0 <= k < |body| => Defs(body[k])), v, i - lo, j - lo);
  }

  /** The table is determined by the commands. */
  lemma LastDefsUnique(p: seq<Cmd>, lo: nat, hi: nat, d1: map<Value, nat>, d2: map<Value, nat>)
    requires LastDefs(p, lo, hi, d1) && LastDefs(p, lo, hi, d2)
    ensures d1 == d2
  {
    forall v
      ensures v in d1 <==> v in d2
      ensures v in d1 ==> d1[v] == d2[v]
    {
      if v in d1 {
        assert DefinedAt(p, v, d1[v]);
      }
      if v in d2 {
        assert DefinedAt(p, v, d2[v]);
      }
    }
  }

  method LastDefinitions(p: seq<Cmd>, lo: nat, hi: nat) returns (defOf: map<Value, nat>)
    requires lo <= hi <= |p|
    ensures LastDefs(p, lo, hi, defOf)
  {
    defOf := map[];
    for j := lo to hi
      invariant LastDefs(p, lo, j, defOf)
    {
      var outs := Defs(p[j]);
      assert forall v :: v in outs <==> DefinedAt(p, v, j);
      defOf := MarkAll(outs, j, defOf);
    }
  }

  /** Record `j` for each value in `outs`. */
  method MarkAll(outs: seq<Value>, j: nat, before: map<Value, nat>) returns (after: map<Value, nat>)
    ensures forall v :: v in after <==> v in before || v in outs
    ensures forall v :: v in after ==> after[v] == if v in outs then j else before[v]
  {
    after := before;
    for k := 0 to |outs|
      invariant forall v :: v in after <==> v in before || v in outs[..k]
      invariant forall v :: v in after ==> after[v] == if v in outs[..k] then j else before[v]
    {
      assert outs[..k + 1] == outs[..k] + [outs[k]];
      after := after[outs[k] := j];
    }
    assert outs[..|outs|] == outs;
  }
}
