/** The values of a function in the order the scan takes them. */
module ScanOrder {
  import opened IL
  import opened LinearScan

  // ---- the values of a function ----

  ghost predicate Occurs(p: seq<Cmd>, n: nat, v: Value)
    requires n <= |p|
  {
    exists i :: 0 <= i < n && (v in Uses(p[i]) || v in Defs(p[i]))
  }

  /** Position of the first occurrence of `v`. */
  function First(s: seq<Value>, v: Value): nat {
    if s == [] || v in s[..|s| - 1] then (if s == [] then 0 else First(s[..|s| - 1], v)) else |s| - 1
  }

  lemma FirstThen(s: seq<Value>, x: Value, v: Value)
    ensures v in s ==> First(s + [x], v) == First(s, v)
    ensures x !in s ==> First(s + [x], x) == |s|
    ensures v in s ==> First(s, v) < |s|
  {
    assert (s + [x])[..|s|] == s;
    if v in s {
      FirstInside(s, v);
    }
  }

  lemma {:induction false} FirstInside(s: seq<Value>, v: Value)
    requires v in s
    ensures First(s, v) < |s|
    decreases |s|
  {
    if v in s[..|s| - 1] {
      FirstInside(s[..|s| - 1], v);
    }
  }

  /** `values` holds the elements of `s`, each once, in order of first occurrence. */
  ghost predicate InOrderOf(values: seq<Value>, s: seq<Value>) {
    && (forall v :: v in values <==> v in s)
    && (forall i, j :: 0 <= i < j < |values| ==> First(s, values[i]) < First(s, values[j]))
  }

  /** Everything the commands mention, command by command, what they use ahead of what
      they define. */
  function Mentioned(p: seq<Cmd>, n: nat): seq<Value>
    requires n <= |p|
  {
    if n == 0 then [] else Mentioned(p, n - 1) + Uses(p[n - 1]) + Defs(p[n - 1])
  }

  lemma OneMoreMention(values: seq<Value>, s: seq<Value>, x: Value)
    requires InOrderOf(values, s)
    ensures InOrderOf(if x in values then values else values + [x], s + [x])
  {
    var r := if x in values then values else values + [x];
    forall i, j | 0 <= i < j < |r|
      ensures First(s + [x], r[i]) < First(s + [x], r[j])
    {
      FirstThen(s, x, r[i]);
      FirstThen(s, x, r[j]);
    }
  }

  method AddNew(values: seq<Value>, more: seq<Value>, ghost s: seq<Value>) returns (r: seq<Value>)
    requires InOrderOf(values, s)
    ensures InOrderOf(r, s + more)
  {
    r := values;
    assert s + more[..0] == s;
    for k := 0 to |more|
      invariant InOrderOf(r, s + more[..k])
    {
      assert s + more[..k + 1] == (s + more[..k]) + [more[k]];
      OneMoreMention(r, s + more[..k], more[k]);
      if more[k] !in r {
        r := r + [more[k]];
      }
    }
    assert more[..|more|] == more;
  }

  /** The distinct temporaries, in order of first appearance. */
  method CollectValues(p: seq<Cmd>) returns (values: seq<Value>)
    ensures InOrderOf(values, Mentioned(p, |p|))
  {
    values := [];
    for i := 0 to |p|
      invariant InOrderOf(values, Mentioned(p, i))
    {
      values := AddNew(values, Uses(p[i]), Mentioned(p, i));
      values := AddNew(values, Defs(p[i]), Mentioned(p, i) + Uses(p[i]));
    }
  }

  lemma {:induction false} MentionedOccurs(p: seq<Cmd>, n: nat, v: Value)
    requires n <= |p|
    ensures v in Mentioned(p, n) <==> Occurs(p, n, v)
  {
    if n > 0 {
      MentionedOccurs(p, n - 1, v);
      assert Occurs(p, n, v) <==> Occurs(p, n - 1, v) || v in Uses(p[n - 1]) || v in Defs(p[n - 1]);
    }
  }

  // ---- scan order ----

  /** Sorted by interval start, equal starts in order of first appearance in `s`. */
  ghost predicate Sorted(order: seq<Value>, sp: Spans, s: seq<Value>) {
    forall i, j :: 0 <= i < j < |order| ==> Ahead(sp, s, order[i], order[j])
  }

  ghost predicate Ahead(sp: Spans, s: seq<Value>, v: Value, w: Value) {
    sp.From(v) < sp.From(w) || (sp.From(v) == sp.From(w) && First(s, v) < First(s, w))
  }

  method Insert(sorted: seq<Value>, v: Value, sp: Spans, ghost s: seq<Value>) returns (r: seq<Value>)
    requires Sorted(sorted, sp, s) && forall w :: w in sorted ==> First(s, w) < First(s, v)
    ensures Sorted(r, sp, s) && forall w :: w in r <==> w in sorted || w == v
  {
    var k := |sorted|;
    while k > 0 && sp.From(v) < sp.From(sorted[k - 1])
      invariant 0 <= k <= |sorted|
      invariant forall j :: k <= j < |sorted| ==> sp.From(v) < sp.From(sorted[j])
    {
      k := k - 1;
    }
    r := sorted[..k] + [v] + sorted[k..];
    InsertedInOrder(sorted, v, sp, s, k);
  }

  lemma InsertedInOrder(sorted: seq<Value>, v: Value, sp: Spans, s: seq<Value>, k: nat)
    requires Sorted(sorted, sp, s) && k <= |sorted| && forall w :: w in sorted ==> First(s, w) < First(s, v)
    requires forall j :: k <= j < |sorted| ==> sp.From(v) < sp.From(sorted[j])
    requires k > 0 ==> sp.From(sorted[k - 1]) <= sp.From(v)
    ensures var r := sorted[..k] + [v] + sorted[k..];
            Sorted(r, sp, s) && forall w :: w in r <==> w in sorted || w == v
  {
    var r := sorted[..k] + [v] + sorted[k..];
    BeforeInserted(sorted, v, sp, s, k);
    forall i, j | 0 <= i < j < |r|
      ensures Ahead(sp, s, r[i], r[j])
    {
      SplitSorted(sorted, v, sp, s, k, i, j);
    }
    InsertedElements(sorted, v, k);
  }

  lemma InsertedElements(sorted: seq<Value>, v: Value, k: nat)
    requires k <= |sorted|
    ensures forall w :: w in sorted[..k] + [v] + sorted[k..] <==> w in sorted || w == v
  {
  }

  lemma BeforeInserted(sorted: seq<Value>, v: Value, sp: Spans, s: seq<Value>, k: nat)
    requires Sorted(sorted, sp, s) && k <= |sorted| && forall w :: w in sorted ==> First(s, w) < First(s, v)
    requires k > 0 ==> sp.From(sorted[k - 1]) <= sp.From(v)
    ensures forall j :: 0 <= j < k ==> Ahead(sp, s, sorted[j], v)
  {
    forall j | 0 <= j < k
      ensures Ahead(sp, s, sorted[j], v)
    {
      assert sorted[j] in sorted;
      assert j < k - 1 ==> Ahead(sp, s, sorted[j], sorted[k - 1]);
    }
  }

  lemma SplitSorted(sorted: seq<Value>, v: Value, sp: Spans, s: seq<Value>, k: nat, i: nat, j: nat)
    requires Sorted(sorted, sp, s) && k <= |sorted| && i < j <= |sorted|
    requires forall x :: 0 <= x < k ==> Ahead(sp, s, sorted[x], v)
    requires forall x :: k <= x < |sorted| ==> sp.From(v) < sp.From(sorted[x])
    ensures var r := sorted[..k] + [v] + sorted[k..]; Ahead(sp, s, r[i], r[j])
  {
    var r := sorted[..k] + [v] + sorted[k..];
    assert forall x :: 0 <= x < k ==> r[x] == sorted[x];
    assert r[k] == v;
    assert forall x :: k < x <= |sorted| ==> r[x] == sorted[x - 1];
    if i < k && j < k {
      assert Ahead(sp, s, sorted[i], sorted[j]);
    } else if i < k < j {
      assert Ahead(sp, s, sorted[i], sorted[j - 1]);
    } else if k < i {
      assert Ahead(sp, s, sorted[i - 1], sorted[j - 1]);
    }
  }

  /** Stable sort by interval start. */
  method SortByStart(values: seq<Value>, sp: Spans, ghost s: seq<Value>) returns (order: seq<Value>)
    requires InOrderOf(values, s)
    ensures Sorted(order, sp, s) && Ordered(order, sp) && forall v :: v in order <==> v in values
  {
    order := [];
    for i := 0 to |values|
      invariant Sorted(order, sp, s) && forall v :: v in order <==> v in values[..i]
    {
      assert values[..i + 1] == values[..i] + [values[i]];
      order := Insert(order, values[i], sp, s);
    }
    assert values[..|values|] == values;
    forall i, j | 0 <= i < j < |order|
      ensures sp.From(order[i]) <= sp.From(order[j]) && order[i] != order[j]
    {
      assert Ahead(sp, s, order[i], order[j]);
    }
  }
}
