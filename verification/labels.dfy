/** Label lookup in a list built by concatenation. */
module Labels {
  import opened IL

  lemma {:induction false} TargetSplits(a: seq<Cmd>, b: seq<Cmd>, l: nat)
    ensures TargetIn(a + b, l) ==
            if TargetIn(b, l).Some? then Some(|a| + TargetIn(b, l).value) else TargetIn(a, l)
    decreases |b|
  {
    if b == [] {
      assert a + b == a;
    } else {
      var n := |b| - 1;
      assert (a + b)[..|a + b| - 1] == a + b[..n];
      TargetSplits(a, b[..n], l);
    }
  }

  predicate LabelFree(a: seq<Cmd>) {
    forall i :: 0 <= i < |a| ==> !a[i].Label?
  }

  lemma NoTargetIn(a: seq<Cmd>, l: nat)
    requires LabelFree(a)
    ensures TargetIn(a, l).None?
  {
  }

  lemma LastLands(pre: seq<Cmd>, head: Cmd, l: nat)
    ensures TargetIn(pre + [head], l) == if head == Label(l) then Some(|pre|) else TargetIn(pre, l)
  {
    assert (pre + [head])[..|pre|] == pre;
  }
}
