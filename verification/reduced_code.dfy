/** Where each command of the original function is in the rewritten one. */
module ReducedCode {
  import opened IL
  import opened Labels
  import opened StrengthReduction

  /** The loop and the indices of the commands moved out of its body. */
  ghost predicate Movable(p: seq<Cmd>, start: nat, back: nat, s: set<nat>) {
    start < back < |p| && forall d :: d in s ==> start < d < back
  }

  /** Position in the new code of the first command at or after `i` that stays. */
  function Pos(start: nat, back: nat, s: set<nat>, i: nat): nat {
    if i < start then i
    else if i <= back then i + Within(s, i, back)
    else i + 2
  }

  lemma {:induction false} WithinSplits(s: set<nat>, lo: nat, i: nat, hi: nat)
    requires lo <= i <= hi
    ensures Within(s, lo, hi) == Within(s, lo, i) + Within(s, i, hi)
    decreases hi
  {
    if i < hi {
      WithinSplits(s, lo, i, hi - 1);
    }
  }

  lemma {:induction false} PartLengths(p: seq<Cmd>, s: set<nat>, lo: nat, hi: nat)
    requires lo <= hi <= |p|
    ensures |Select(p, s, lo, hi)| == Within(s, lo, hi)
    ensures |Omit(p, s, lo, hi)| == hi - lo - Within(s, lo, hi)
    decreases hi
  {
    if lo < hi {
      PartLengths(p, s, lo, hi - 1);
    }
  }

  lemma {:induction false} PartAt(p: seq<Cmd>, s: set<nat>, lo: nat, i: nat, hi: nat)
    requires lo <= i < hi <= |p|
    ensures |Select(p, s, lo, hi)| == Within(s, lo, hi) && |Omit(p, s, lo, hi)| == hi - lo - Within(s, lo, hi)
    ensures i in s ==> Within(s, lo, i) < Within(s, lo, hi) && Select(p, s, lo, hi)[Within(s, lo, i)] == p[i]
    ensures i !in s ==> 0 <= i - lo - Within(s, lo, i) < hi - lo - Within(s, lo, hi)
                        && Omit(p, s, lo, hi)[i - lo - Within(s, lo, i)] == p[i]
    decreases hi
  {
    PartLengths(p, s, lo, hi - 1);
    if i < hi - 1 {
      PartAt(p, s, lo, i, hi - 1);
    }
  }

  lemma NewLength(p: seq<Cmd>, start: nat, back: nat, s: set<nat>, addr: Value, stride: int, tmp: Value)
    requires Movable(p, start, back, s)
    ensures |Rewritten(p, start, back, s, addr, stride, tmp)| == |p| + 2
    ensures Within(s, start, back) == Within(s, start + 1, back)
  {
    PartLengths(p, s, start + 1, back);
    WithinSplits(s, start, start + 1, back);
    assert Within(s, start, start + 1) == 0;
  }

  /** A command that stays is at its new position, and the next one follows it. */
  lemma StaysAt(p: seq<Cmd>, start: nat, back: nat, s: set<nat>, addr: Value, stride: int, tmp: Value, i: nat)
    requires Movable(p, start, back, s) && i < |p| && i !in s && i != back
    ensures var q := Rewritten(p, start, back, s, addr, stride, tmp);
            Pos(start, back, s, i) < |q| && q[Pos(start, back, s, i)] == p[i]
    ensures i + 1 != start ==> Pos(start, back, s, i + 1) == Pos(start, back, s, i) + 1
  {
    NewLength(p, start, back, s, addr, stride, tmp);
    PartLengths(p, s, start + 1, back);
    if start < i < back {
      PartAt(p, s, start + 1, i, back);
      WithinSplits(s, start + 1, i, back);
    }
    if start <= i < back {
      WithinSplits(s, i, i + 1, back);
      assert Within(s, i, i + 1) == 0;
    }
  }

  /** A moved command is in front of the loop's label. */
  lemma MovedAt(p: seq<Cmd>, start: nat, back: nat, s: set<nat>, addr: Value, stride: int, tmp: Value, d: nat)
    requires Movable(p, start, back, s) && d in s
    ensures var q := Rewritten(p, start, back, s, addr, stride, tmp);
            start + Within(s, start + 1, d) < |q| && q[start + Within(s, start + 1, d)] == p[d]
    ensures Pos(start, back, s, d + 1) == Pos(start, back, s, d)
  {
    NewLength(p, start, back, s, addr, stride, tmp);
    PartAt(p, s, start + 1, d, back);
    WithinSplits(s, d, d + 1, back);
    assert Within(s, d, d + 1) == 1;
  }

  lemma AdvanceAt(p: seq<Cmd>, start: nat, back: nat, s: set<nat>, addr: Value, stride: int, tmp: Value)
    requires Movable(p, start, back, s)
    ensures var q := Rewritten(p, start, back, s, addr, stride, tmp);
            && Pos(start, back, s, back) == back && |q| == |p| + 2
            && q[back] == Op(Add, [Temp(addr), Lit(stride)], [Temp(tmp)])
            && q[back + 1] == Set(Temp(addr), Temp(tmp)) && q[back + 2] == p[back]
  {
    PartLengths(p, s, start + 1, back);
    var adv := Advance(addr, stride, tmp);
    assert adv[0] == Op(Add, [Temp(addr), Lit(stride)], [Temp(tmp)]) && adv[1] == Set(Temp(addr), Temp(tmp));
  }

  // ---- labels ----

  /** Where a jump to `l` lands in `pre + gap + [head] + mid + post` when neither
      `gap` nor `mid` holds a label. */
  function Landing(pre: seq<Cmd>, gap: nat, head: Cmd, mid: nat, post: seq<Cmd>, l: nat): Option<nat> {
    if TargetIn(post, l).Some? then Some(|pre| + gap + 1 + mid + TargetIn(post, l).value)
    else if head == Label(l) then Some(|pre| + gap)
    else TargetIn(pre, l)
  }

  lemma LandsThere(pre: seq<Cmd>, gap: seq<Cmd>, head: Cmd, mid: seq<Cmd>, post: seq<Cmd>, l: nat)
    requires LabelFree(gap) && LabelFree(mid)
    ensures TargetIn(((pre + gap) + [head]) + (mid + post), l) == Landing(pre, |gap|, head, |mid|, post, l)
  {
    NoTargetIn(gap, l);
    NoTargetIn(mid, l);
    TargetSplits(pre, gap, l);
    TargetSplits(mid, post, l);
    TargetSplits((pre + gap) + [head], mid + post, l);
    LastLands(pre + gap, head, l);
  }

  lemma {:induction false} PartsLabelFree(p: seq<Cmd>, s: set<nat>, lo: nat, hi: nat)
    requires lo <= hi <= |p| && forall i :: lo <= i < hi ==> !p[i].Label?
    ensures LabelFree(Select(p, s, lo, hi)) && LabelFree(Omit(p, s, lo, hi))
    decreases hi
  {
    if lo < hi {
      PartsLabelFree(p, s, lo, hi - 1);
    }
  }

  /** Every label is found at the new position of its command. */
  lemma TargetMoves(p: seq<Cmd>, start: nat, back: nat, s: set<nat>, addr: Value, stride: int, tmp: Value, l: nat)
    requires Movable(p, start, back, s) && forall j :: start < j <= back ==> !p[j].Label?
    ensures TargetIn(Rewritten(p, start, back, s, addr, stride, tmp), l) ==
            if TargetIn(p, l).Some? then Some(Pos(start, back, s, TargetIn(p, l).value)) else None
    ensures TargetIn(p, l).Some? ==> !(start < TargetIn(p, l).value <= back)
  {
    OldLanding(p, start, back, l);
    NewLanding(p, start, back, s, addr, stride, tmp, l);
    NewLength(p, start, back, s, addr, stride, tmp);
    PartLengths(p, s, start + 1, back);
    assert p[back..][0] == p[back];
    LandingMoves(start, back, s, p[..start], p[start], p[back..], l);
  }

  lemma LandingMoves(start: nat, back: nat, s: set<nat>, pre: seq<Cmd>, head: Cmd, post: seq<Cmd>, l: nat)
    requires start < back && |pre| == start && |post| > 0 && !post[0].Label? && Within(s, start, back) == Within(s, start + 1, back) < back - start
    ensures var was := Landing(pre, 0, head, back - start - 1, post, l);
            && Landing(pre, Within(s, start + 1, back), head, back - start - 1 - Within(s, start + 1, back) + 2, post, l)
               == (if was.Some? then Some(Pos(start, back, s, was.value)) else None)
            && (was.Some? ==> !(start < was.value <= back))
  {
  }

  lemma SliceLabelFree(p: seq<Cmd>, lo: nat, hi: nat)
    requires lo <= hi <= |p| && forall j :: lo <= j < hi ==> !p[j].Label?
    ensures LabelFree(p[lo..hi])
  {
    forall i | 0 <= i < hi - lo
      ensures !p[lo..hi][i].Label?
    {
      assert p[lo..hi][i] == p[lo + i];
    }
  }

  lemma OldLanding(p: seq<Cmd>, start: nat, back: nat, l: nat)
    requires start < back < |p| && forall j :: start < j <= back ==> !p[j].Label?
    ensures TargetIn(p, l) == Landing(p[..start], 0, p[start], back - start - 1, p[back..], l)
  {
    SliceLabelFree(p, start + 1, back);
    LandsThere(p[..start], [], p[start], p[start + 1..back], p[back..], l);
    Reassembled(p, start, back);
  }

  lemma Reassembled(p: seq<Cmd>, start: nat, back: nat)
    requires start < back < |p|
    ensures ((p[..start] + []) + [p[start]]) + (p[start + 1..back] + p[back..]) == p
  {
    assert p[start + 1..back] + p[back..] == p[start + 1..];
    assert p[..start] + [] == p[..start] && p[..start] + [p[start]] == p[..start + 1];
  }

  lemma NewLanding(p: seq<Cmd>, start: nat, back: nat, s: set<nat>, addr: Value, stride: int, tmp: Value, l: nat)
    requires Movable(p, start, back, s) && forall j :: start < j <= back ==> !p[j].Label?
    ensures TargetIn(Rewritten(p, start, back, s, addr, stride, tmp), l)
            == Landing(p[..start], Within(s, start + 1, back), p[start], |Omit(p, s, start + 1, back)| + 2, p[back..], l)
  {
    var sel, om := Select(p, s, start + 1, back), Omit(p, s, start + 1, back);
    var adv := Advance(addr, stride, tmp);
    PartLengths(p, s, start + 1, back);
    PartsLabelFree(p, s, start + 1, back);
    assert LabelFree(om + adv);
    assert Rewritten(p, start, back, s, addr, stride, tmp) == ((p[..start] + sel) + [p[start]]) + ((om + adv) + p[back..]);
    LandsThere(p[..start], sel, p[start], om + adv, p[back..], l);
  }
}
