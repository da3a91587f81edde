/** Live intervals and the caller/callee linear scan over two register files. */
module LinearScan {
  import opened IL
  import opened Liveness

  // ---- live intervals ----

  /** `v` occupies its home at command `i`. */
  ghost predicate Present(liveIn: Live, liveOut: Live, uses: seq<seq<Value>>, defs: seq<seq<Value>>, i: nat, v: Value)
    requires i < |liveIn| && i < |liveOut| && i < |uses| && i < |defs|
  {
    v in liveIn[i] || v in liveOut[i] || v in defs[i] || v in uses[i]
  }

  ghost predicate Tables(p: seq<Cmd>, liveIn: Live, liveOut: Live, uses: seq<seq<Value>>, defs: seq<seq<Value>>) {
    Shape(p, uses, defs) && |liveIn| == |p| && |liveOut| == |p|
  }

  /** The intervals cover exactly the span of each value's presence: both ends
      are indices where the value is present, and nothing lies outside. */
  ghost predicate Covers(liveIn: Live, liveOut: Live, uses: seq<seq<Value>>, defs: seq<seq<Value>>, n: nat,
                         start: map<Value, nat>, end: map<Value, nat>)
    requires n <= |liveIn| && n <= |liveOut| && n <= |uses| && n <= |defs|
  {
    && start.Keys == end.Keys
    && (forall i, v :: 0 <= i < n && Present(liveIn, liveOut, uses, defs, i, v) ==>
          v in start && start[v] <= i <= end[v])
    && (forall v :: v in start ==> start[v] < n && Present(liveIn, liveOut, uses, defs, start[v], v))
    && (forall v :: v in end ==> end[v] < n && Present(liveIn, liveOut, uses, defs, end[v], v))
  }

  ghost predicate CrossesCall(p: seq<Cmd>, liveIn: Live, liveOut: Live, n: nat, v: Value)
    requires n <= |p| && |liveIn| == |p| && |liveOut| == |p|
  {
    exists i :: 0 <= i < n && p[i].Call? && v in liveIn[i] && v in liveOut[i]
  }

  /** Stretch the interval of every value in `here` to reach index `i`. */
  method Stretch(here: set<Value>, i: nat, start0: map<Value, nat>, end0: map<Value, nat>)
    returns (start: map<Value, nat>, end: map<Value, nat>)
    requires start0.Keys == end0.Keys
    requires forall v :: v in start0 ==> start0[v] <= i && end0[v] <= i
    ensures start.Keys == end.Keys == start0.Keys + here
    ensures forall v :: v in start ==> start[v] == if v in start0 then start0[v] else i
    ensures forall v :: v in end ==> end[v] == if v in here then i else end0[v]
  {
    start, end := start0, end0;
    var todo := here;
    while todo != {}
      invariant todo <= here
      invariant start.Keys == end.Keys == start0.Keys + (here - todo)
      invariant forall v :: v in start ==> start[v] == if v in start0 then start0[v] else i
      invariant forall v :: v in end ==> end[v] == if v in here - todo then i else end0[v]
    {
      var v :| v in todo;
      todo := todo - {v};
      if v !in start || i < start[v] {
        start := start[v := i];
      }
      if v !in end || i > end[v] {
        end := end[v := i];
      }
    }
  }

  method Intervals(p: seq<Cmd>, liveIn: Live, liveOut: Live, uses: seq<seq<Value>>, defs: seq<seq<Value>>)
    returns (start: map<Value, nat>, end: map<Value, nat>, crosses: set<Value>)
    requires Tables(p, liveIn, liveOut, uses, defs)
    ensures Covers(liveIn, liveOut, uses, defs, |p|, start, end)
    ensures forall v :: v in crosses <==> CrossesCall(p, liveIn, liveOut, |p|, v)
  {
    start, end, crosses := map[], map[], {};
    for i := 0 to |p|
      invariant Covers(liveIn, liveOut, uses, defs, i, start, end)
      invariant forall v :: v in crosses <==> CrossesCall(p, liveIn, liveOut, i, v)
    {
      var here := liveIn[i] + liveOut[i] + Elems(defs[i]) + Elems(uses[i]);
      assert forall v :: v in here <==> Present(liveIn, liveOut, uses, defs, i, v);
      ghost var start0, end0 := start, end;
      start, end := Stretch(here, i, start, end);
      CoversNext(liveIn, liveOut, uses, defs, i, here, start0, end0, start, end);
      ghost var crosses0 := crosses;
      if p[i].Call? {
        crosses := crosses + (liveOut[i] * liveIn[i]);
      }
      CrossesNext(p, liveIn, liveOut, i, crosses0, crosses);
    }
  }

  lemma CoversNext(liveIn: Live, liveOut: Live, uses: seq<seq<Value>>, defs: seq<seq<Value>>, i: nat, here: set<Value>,
                   start0: map<Value, nat>, end0: map<Value, nat>, start: map<Value, nat>, end: map<Value, nat>)
    requires i < |liveIn| && i < |liveOut| && i < |uses| && i < |defs|
    requires Covers(liveIn, liveOut, uses, defs, i, start0, end0)
    requires forall v :: v in here <==> Present(liveIn, liveOut, uses, defs, i, v)
    requires start.Keys == end.Keys == start0.Keys + here
    requires forall v :: v in start ==> start[v] == if v in start0 then start0[v] else i
    requires forall v :: v in end ==> end[v] == if v in here then i else end0[v]
    ensures Covers(liveIn, liveOut, uses, defs, i + 1, start, end)
  {
  }

  lemma CrossesNext(p: seq<Cmd>, liveIn: Live, liveOut: Live, i: nat, crosses0: set<Value>, crosses: set<Value>)
    requires |liveIn| == |p| && |liveOut| == |p| && i < |p|
    requires forall v :: v in crosses0 <==> CrossesCall(p, liveIn, liveOut, i, v)
    requires crosses == if p[i].Call? then crosses0 + (liveOut[i] * liveIn[i]) else crosses0
    ensures forall v :: v in crosses <==> CrossesCall(p, liveIn, liveOut, i + 1, v)
  {
    forall v
      ensures v in crosses <==> CrossesCall(p, liveIn, liveOut, i + 1, v)
    {
      if CrossesCall(p, liveIn, liveOut, i + 1, v) {
        var j :| 0 <= j < i + 1 && p[j].Call? && v in liveIn[j] && v in liveOut[j];
        assert j < i ==> CrossesCall(p, liveIn, liveOut, i, v);
      }
    }
  }

  // ---- the scan ----

  /** What the scan knows of each value: its interval and whether it crosses a call. */
  datatype Spans = Spans(start: map<Value, nat>, end: map<Value, nat>, crosses: set<Value>) {
    function From(v: Value): nat {
      if v in start then start[v] else 0
    }

    function To(v: Value): nat {
      if v in end then end[v] else From(v)
    }

    ghost predicate Apart(v: Value, w: Value) {
      To(v) < From(w) || To(w) < From(v)
    }
  }

  /** One register file as the scan finds it: its pools in order of preference,
      registers reserved up to some index, and callee-saved ones already used. */
  datatype File = File(floating: bool, caller: seq<nat>, callee: seq<nat>, reserved: map<nat, nat>, used0: set<nat>) {
    ghost predicate PoolsApart() {
      forall r :: r in caller ==> r !in callee
    }
  }

  function BusyUntil(busy: map<nat, nat>, r: nat): int {
    if r in busy then busy[r] else -1
  }

  ghost predicate Ordered(order: seq<Value>, sp: Spans) {
    && (forall i, j :: 0 <= i < j < |order| ==> sp.From(order[i]) <= sp.From(order[j]))
    && (forall i, j :: 0 <= i < j < |order| ==> order[i] != order[j])
  }

  /** Register `r` cannot take `v`: it is reserved past `v`'s start, or another
      assigned value's interval covers that start. */
  ghost predicate Taken(sp: Spans, f: File, regs: map<Value, nat>, v: Value, r: nat) {
    || sp.From(v) <= BusyUntil(f.reserved, r)
    || exists w :: w in regs && regs[w] == r && w != v && sp.From(w) <= sp.From(v) <= sp.To(w)
  }

  ghost predicate AllTaken(sp: Spans, f: File, regs: map<Value, nat>, v: Value, pool: seq<nat>) {
    forall r :: r in pool ==> Taken(sp, f, regs, v, r)
  }

  /** The right kind of register for `v`: callee-saved if it is live across a call. */
  ghost predicate Allowed(sp: Spans, f: File, v: Value, r: nat) {
    r in f.callee || (v !in sp.crosses && r in f.caller)
  }

  ghost predicate Disjoint(sp: Spans, regs: map<Value, nat>) {
    forall v, w :: v in regs && w in regs && v != w && regs[v] == regs[w] ==> sp.Apart(v, w)
  }

  ghost predicate UsedExactly(f: File, regs: map<Value, nat>, used: set<nat>) {
    forall r :: r in used <==> r in f.used0 || exists v :: v in regs && regs[v] == r && r in f.callee
  }

  ghost predicate SpilledFor(sp: Spans, f: File, regs: map<Value, nat>, v: Value) {
    && AllTaken(sp, f, regs, v, f.callee)
    && (v !in sp.crosses ==> AllTaken(sp, f, regs, v, f.caller))
  }

  /** The outcome of a scan of `order` for one register file. */
  ghost predicate Result(order: seq<Value>, sp: Spans, f: File, regs: map<Value, nat>, used: set<nat>, spill: set<Value>) {
    // every value of this kind is either in a register or spilled, never both
    && (forall v :: v in order && v.floating == f.floating ==> (v in regs <==> v !in spill))
    && (forall v :: v in regs ==> v in order && v.floating == f.floating)
    && (forall v :: v in regs ==> Allowed(sp, f, v, regs[v]) && BusyUntil(f.reserved, regs[v]) < sp.From(v))
    // two values share a register only if their intervals are disjoint
    && Disjoint(sp, regs)
    // exactly the callee-saved registers handed out are reported for saving
    && UsedExactly(f, regs, used)
    // nothing is spilled while a register it may use is free
    && (forall v :: v in spill && v.floating == f.floating ==> SpilledFor(sp, f, regs, v))
  }

  /** What the busy table means part way through. */
  ghost predicate BusyOk(sp: Spans, f: File, regs: map<Value, nat>, busy: map<nat, nat>) {
    && (forall v :: v in regs ==> sp.To(v) <= BusyUntil(busy, regs[v]))
    && (forall r: nat :: BusyBecause(sp, f, regs, busy, r))
  }

  /** A register is busy up to its reservation, or to the end of a value it holds. */
  ghost predicate BusyBecause(sp: Spans, f: File, regs: map<Value, nat>, busy: map<nat, nat>, r: nat) {
    && BusyUntil(f.reserved, r) <= BusyUntil(busy, r)
    && (BusyUntil(busy, r) == BusyUntil(f.reserved, r)
        || exists w :: w in regs && regs[w] == r && sp.To(w) == BusyUntil(busy, r))
  }

  ghost predicate Part(done: seq<Value>, sp: Spans, f: File, regs: map<Value, nat>, used: set<nat>, spill: set<Value>, busy: map<nat, nat>) {
    && Result(done, sp, f, regs, used, spill)
    && BusyOk(sp, f, regs, busy)
    && (forall v :: v in spill ==> v in done)
  }

  /** `r` is the first register of the list that is free at `s`, or -1 if none is. */
  ghost predicate FirstFree(pool: seq<nat>, busy: map<nat, nat>, s: nat, r: int) {
    if r == -1 then forall k :: 0 <= k < |pool| ==> s <= BusyUntil(busy, pool[k])
    else exists k :: 0 <= k < |pool| && FreeFrom(pool, busy, s, k) && r == pool[k]
  }

  ghost predicate FreeFrom(pool: seq<nat>, busy: map<nat, nat>, s: nat, k: nat)
    requires k < |pool|
  {
    BusyUntil(busy, pool[k]) < s && forall j :: 0 <= j < k ==> s <= BusyUntil(busy, pool[j])
  }

  /** First register of the pool whose last occupant ended before `s`, or -1. */
  method Pick(pool: seq<nat>, busy: map<nat, nat>, s: nat) returns (r: int)
    ensures FirstFree(pool, busy, s, r)
  {
    for k := 0 to |pool|
      invariant forall j :: 0 <= j < k ==> s <= BusyUntil(busy, pool[j])
    {
      if BusyUntil(busy, pool[k]) < s {
        assert FreeFrom(pool, busy, s, k);
        return pool[k];
      }
    }
    return -1;
  }

  /** The registers a value may have, best first: callee-saved only for one live
      across a call, otherwise caller-saved ones before them. */
  function Candidates(f: File, crossing: bool): seq<nat> {
    if crossing then f.callee else f.caller + f.callee
  }

  /** Choose the first candidate free at `s` for a value starting there, or -1. */
  method Choose(crossing: bool, f: File, busy: map<nat, nat>, s: nat, used: set<nat>)
    returns (r: int, used1: set<nat>)
    requires f.PoolsApart()
    ensures FirstFree(Candidates(f, crossing), busy, s, r)
    ensures used1 == if r >= 0 && r in f.callee then used + {r} else used
  {
    used1 := used;
    if crossing {
      r := Pick(f.callee, busy, s);
      if r >= 0 { used1 := used1 + {r}; }
    } else {
      r := Pick(f.caller, busy, s);
      if r < 0 {
        r := Pick(f.callee, busy, s);
        if r >= 0 { used1 := used1 + {r}; }
        LaterPool(f.caller, f.callee, busy, s, r);
      } else {
        EarlierPool(f.caller, f.callee, busy, s, r);
      }
    }
  }

  lemma EarlierPool(a: seq<nat>, b: seq<nat>, busy: map<nat, nat>, s: nat, r: int)
    requires FirstFree(a, busy, s, r) && r != -1
    ensures FirstFree(a + b, busy, s, r)
  {
    var k :| 0 <= k < |a| && FreeFrom(a, busy, s, k) && r == a[k];
    assert FreeFrom(a + b, busy, s, k);
  }

  lemma LaterPool(a: seq<nat>, b: seq<nat>, busy: map<nat, nat>, s: nat, r: int)
    requires FirstFree(a, busy, s, -1) && FirstFree(b, busy, s, r)
    ensures FirstFree(a + b, busy, s, r)
  {
    if r != -1 {
      var k :| 0 <= k < |b| && FreeFrom(b, busy, s, k) && r == b[k];
      assert FreeFrom(a + b, busy, s, |a| + k);
    }
  }

  lemma NoneFree(f: File, crossing: bool, busy: map<nat, nat>, s: nat)
    requires FirstFree(Candidates(f, crossing), busy, s, -1)
    ensures forall x :: x in f.callee ==> s <= BusyUntil(busy, x)
    ensures !crossing ==> forall x :: x in f.caller ==> s <= BusyUntil(busy, x)
  {
    var pool := Candidates(f, crossing);
    forall x | x in pool
      ensures s <= BusyUntil(busy, x)
    {
      var k :| 0 <= k < |pool| && pool[k] == x;
    }
    assert forall x :: x in f.callee ==> x in pool;
  }

  // ---- the scan is first fit ----

  /** Register `r` is not free when the value at position `i` of the order starts: it
      is reserved past that point, or an earlier value holds it till then. */
  ghost predicate Blocked(order: seq<Value>, sp: Spans, f: File, regs: map<Value, nat>, i: nat, r: nat)
    requires i < |order|
  {
    || sp.From(order[i]) <= BusyUntil(f.reserved, r)
    || exists j :: 0 <= j < i && HoldsTill(order[j], sp, regs, r, sp.From(order[i]))
  }

  ghost predicate HoldsTill(w: Value, sp: Spans, regs: map<Value, nat>, r: nat, s: nat) {
    w in regs && regs[w] == r && s <= sp.To(w)
  }

  /** The value at position `i` has the first candidate that is not blocked, or none if
      all are. */
  ghost predicate FitAt(order: seq<Value>, sp: Spans, f: File, regs: map<Value, nat>, i: nat)
    requires i < |order|
  {
    var v := order[i];
    var cands := Candidates(f, v in sp.crosses);
    v.floating == f.floating ==>
      if v in regs then exists k :: 0 <= k < |cands| && FitsAt(order, sp, f, regs, i, cands, k) && regs[v] == cands[k]
      else forall k :: 0 <= k < |cands| ==> Blocked(order, sp, f, regs, i, cands[k])
  }

  ghost predicate FitsAt(order: seq<Value>, sp: Spans, f: File, regs: map<Value, nat>, i: nat, cands: seq<nat>, k: nat)
    requires i < |order| && k < |cands|
  {
    !Blocked(order, sp, f, regs, i, cands[k]) && forall j :: 0 <= j < k ==> Blocked(order, sp, f, regs, i, cands[j])
  }

  ghost predicate FirstFit(order: seq<Value>, sp: Spans, f: File, regs: map<Value, nat>, n: nat)
    requires n <= |order|
  {
    forall i :: 0 <= i < n ==> FitAt(order, sp, f, regs, i)
  }

  /** The busy table tells exactly which registers are blocked. */
  lemma BusyIsBlocked(order: seq<Value>, sp: Spans, f: File, regs: map<Value, nat>, busy: map<nat, nat>, i: nat, r: nat)
    requires i < |order| && BusyOk(sp, f, regs, busy) && forall v :: v in regs ==> v in order[..i]
    ensures Blocked(order, sp, f, regs, i, r) <==> sp.From(order[i]) <= BusyUntil(busy, r)
  {
    assert BusyBecause(sp, f, regs, busy, r);
    if sp.From(order[i]) <= BusyUntil(busy, r) && BusyUntil(busy, r) != BusyUntil(f.reserved, r) {
      var w :| w in regs && regs[w] == r && sp.To(w) == BusyUntil(busy, r);
      var j :| 0 <= j < i && order[j] == w;
      assert HoldsTill(order[j], sp, regs, r, sp.From(order[i]));
    }
  }

  /** What was blocked earlier in the order depends on earlier values only. */
  lemma BlockedStays(order: seq<Value>, sp: Spans, f: File, regs: map<Value, nat>, regs1: map<Value, nat>, i: nat, r: nat)
    requires i < |order| && forall j :: 0 <= j < i ==> (order[j] in regs <==> order[j] in regs1) && (order[j] in regs ==> regs[order[j]] == regs1[order[j]])
    ensures Blocked(order, sp, f, regs1, i, r) <==> Blocked(order, sp, f, regs, i, r)
  {
    forall j | 0 <= j < i
      ensures HoldsTill(order[j], sp, regs1, r, sp.From(order[i])) <==> HoldsTill(order[j], sp, regs, r, sp.From(order[i]))
    {
    }
  }

  lemma FitStays(order: seq<Value>, sp: Spans, f: File, regs: map<Value, nat>, regs1: map<Value, nat>, i: nat)
    requires i < |order| && FitAt(order, sp, f, regs, i)
    requires forall j :: 0 <= j <= i ==> (order[j] in regs <==> order[j] in regs1) && (order[j] in regs ==> regs[order[j]] == regs1[order[j]])
    ensures FitAt(order, sp, f, regs1, i)
  {
    forall r ensures Blocked(order, sp, f, regs1, i, r) <==> Blocked(order, sp, f, regs, i, r) {
      BlockedStays(order, sp, f, regs, regs1, i, r);
    }
    var v := order[i];
    var cands := Candidates(f, v in sp.crosses);
    if v.floating == f.floating && v in regs {
      var k :| 0 <= k < |cands| && FitsAt(order, sp, f, regs, i, cands, k) && regs[v] == cands[k];
      assert FitsAt(order, sp, f, regs1, i, cands, k);
    }
  }

  /** Placing the next value by the busy table is placing it first fit. */
  lemma FitNow(order: seq<Value>, sp: Spans, f: File, regs: map<Value, nat>, busy: map<nat, nat>, i: nat, r: int)
    requires i < |order| && BusyOk(sp, f, regs, busy) && (forall v :: v in regs ==> v in order[..i]) && order[i] !in order[..i]
    requires FirstFree(Candidates(f, order[i] in sp.crosses), busy, sp.From(order[i]), r) && r >= -1
    ensures FitAt(order, sp, f, if r >= 0 then regs[order[i] := r] else regs, i)
  {
    var v := order[i];
    var cands := Candidates(f, v in sp.crosses);
    var regs1 := if r >= 0 then regs[v := r] else regs;
    forall x: nat ensures Blocked(order, sp, f, regs1, i, x) <==> sp.From(v) <= BusyUntil(busy, x) {
      BusyIsBlocked(order, sp, f, regs, busy, i, x);
      BlockedStays(order, sp, f, regs, regs1, i, x);
    }
    if r >= 0 {
      var k :| 0 <= k < |cands| && FreeFrom(cands, busy, sp.From(v), k) && r == cands[k];
      assert FitsAt(order, sp, f, regs1, i, cands, k);
    }
  }

  lemma FitNext(order: seq<Value>, sp: Spans, f: File, regs: map<Value, nat>, regs1: map<Value, nat>, i: nat)
    requires i < |order| && FirstFit(order, sp, f, regs, i) && FitAt(order, sp, f, regs1, i)
    requires forall j :: 0 <= j < i ==> (order[j] in regs <==> order[j] in regs1) && (order[j] in regs ==> regs[order[j]] == regs1[order[j]])
    ensures FirstFit(order, sp, f, regs1, i + 1)
  {
    forall j | 0 <= j < i
      ensures FitAt(order, sp, f, regs1, j)
    {
      FitStays(order, sp, f, regs, regs1, j);
    }
  }

  // ---- what one step of the scan keeps ----

  lemma BusyAssign(sp: Spans, f: File, regs: map<Value, nat>, busy: map<nat, nat>, v: Value, r: nat)
    requires BusyOk(sp, f, regs, busy) && v !in regs
    requires BusyUntil(busy, r) < sp.From(v) <= sp.To(v)
    ensures BusyOk(sp, f, regs[v := r], busy[r := sp.To(v)])
  {
    var regs1, busy1 := regs[v := r], busy[r := sp.To(v)];
    forall x: nat
      ensures BusyBecause(sp, f, regs1, busy1, x)
    {
      assert BusyBecause(sp, f, regs, busy, x);
      if x == r {
        assert v in regs1 && regs1[v] == r;
      } else if BusyUntil(busy, x) != BusyUntil(f.reserved, x) {
        var w :| w in regs && regs[w] == x && sp.To(w) == BusyUntil(busy, x);
        assert w in regs1 && regs1[w] == x;
      }
    }
  }

  lemma DisjointAssign(sp: Spans, f: File, regs: map<Value, nat>, busy: map<nat, nat>, v: Value, r: nat)
    requires BusyOk(sp, f, regs, busy) && Disjoint(sp, regs) && BusyUntil(busy, r) < sp.From(v)
    ensures Disjoint(sp, regs[v := r])
  {
  }

  lemma UsedAssign(f: File, regs: map<Value, nat>, used: set<nat>, v: Value, r: nat)
    requires UsedExactly(f, regs, used) && v !in regs
    ensures UsedExactly(f, regs[v := r], if r in f.callee then used + {r} else used)
  {
    var regs1 := regs[v := r];
    assert v in regs1 && regs1[v] == r;
    forall x | x in used && x !in f.used0
      ensures exists w :: w in regs1 && regs1[w] == x && x in f.callee
    {
      var w :| w in regs && regs[w] == x && x in f.callee;
      assert w in regs1 && regs1[w] == x;
    }
  }

  lemma SpilledStays(sp: Spans, f: File, regs: map<Value, nat>, v: Value, w: Value, r: nat)
    requires SpilledFor(sp, f, regs, v) && w !in regs && v != w
    ensures SpilledFor(sp, f, regs[w := r], v)
  {
    forall x | Taken(sp, f, regs, v, x)
      ensures Taken(sp, f, regs[w := r], v, x)
    {
      if sp.From(v) > BusyUntil(f.reserved, x) {
        var u :| u in regs && regs[u] == x && u != v && sp.From(u) <= sp.From(v) <= sp.To(u);
        assert u in regs[w := r] && regs[w := r][u] == x;
      }
    }
  }

  lemma PartAssign(done: seq<Value>, sp: Spans, f: File, regs: map<Value, nat>, used: set<nat>, spill: set<Value>, busy: map<nat, nat>,
                   v: Value, r: nat)
    requires Part(done, sp, f, regs, used, spill, busy) && f.PoolsApart()
    requires v !in done && v.floating == f.floating && Allowed(sp, f, v, r)
    requires BusyUntil(busy, r) < sp.From(v) <= sp.To(v)
    ensures Part(done + [v], sp, f, regs[v := r], if r in f.callee then used + {r} else used, spill, busy[r := sp.To(v)])
  {
    BusyAssign(sp, f, regs, busy, v, r);
    DisjointAssign(sp, f, regs, busy, v, r);
    UsedAssign(f, regs, used, v, r);
    forall w | w in spill && w.floating == f.floating
      ensures SpilledFor(sp, f, regs[v := r], w)
    {
      SpilledStays(sp, f, regs, w, v, r);
    }
    assert BusyBecause(sp, f, regs, busy, r);
  }

  lemma BusyMeansTaken(done: seq<Value>, sp: Spans, f: File, regs: map<Value, nat>, busy: map<nat, nat>, v: Value, pool: seq<nat>)
    requires BusyOk(sp, f, regs, busy) && v !in regs
    requires forall w :: w in regs ==> sp.From(w) <= sp.From(v)
    requires forall x :: x in pool ==> sp.From(v) <= BusyUntil(busy, x)
    ensures AllTaken(sp, f, regs, v, pool)
  {
    forall r | r in pool
      ensures Taken(sp, f, regs, v, r)
    {
      assert BusyBecause(sp, f, regs, busy, r);
      if BusyUntil(busy, r) != BusyUntil(f.reserved, r) {
        var w :| w in regs && regs[w] == r && sp.To(w) == BusyUntil(busy, r);
      }
    }
  }

  lemma PartSpill(done: seq<Value>, sp: Spans, f: File, regs: map<Value, nat>, used: set<nat>, spill: set<Value>, busy: map<nat, nat>, v: Value)
    requires Part(done, sp, f, regs, used, spill, busy)
    requires v !in done && v.floating == f.floating
    requires forall w :: w in done ==> sp.From(w) <= sp.From(v)
    requires forall x :: x in f.callee ==> sp.From(v) <= BusyUntil(busy, x)
    requires v !in sp.crosses ==> forall x :: x in f.caller ==> sp.From(v) <= BusyUntil(busy, x)
    ensures Part(done + [v], sp, f, regs, used, spill + {v}, busy)
  {
    BusyMeansTaken(done, sp, f, regs, busy, v, f.callee);
    if v !in sp.crosses {
      BusyMeansTaken(done, sp, f, regs, busy, v, f.caller);
    }
  }

  /** A value of the other kind leaves this file as it is. */
  lemma PartSkip(done: seq<Value>, sp: Spans, f: File, regs: map<Value, nat>, used: set<nat>, spill: set<Value>, busy: map<nat, nat>,
                 v: Value, spill1: set<Value>)
    requires Part(done, sp, f, regs, used, spill, busy)
    requires v !in done && v.floating != f.floating
    requires spill <= spill1 <= spill + {v}
    ensures Part(done + [v], sp, f, regs, used, spill1, busy)
  {
  }

  /** Place the value at position `i` in its register file, or spill it. */
  method Place(order: seq<Value>, i: nat, sp: Spans, f: File,
               regs: map<Value, nat>, used: set<nat>, spill: set<Value>, busy: map<nat, nat>)
    returns (regs1: map<Value, nat>, used1: set<nat>, spill1: set<Value>, busy1: map<nat, nat>)
    requires i < |order| && Part(order[..i], sp, f, regs, used, spill, busy) && f.PoolsApart()
    requires order[i] !in order[..i] && order[i].floating == f.floating && sp.From(order[i]) <= sp.To(order[i])
    requires forall w :: w in order[..i] ==> sp.From(w) <= sp.From(order[i])
    requires FirstFit(order, sp, f, regs, i)
    ensures Part(order[..i] + [order[i]], sp, f, regs1, used1, spill1, busy1)
    ensures spill <= spill1 <= spill + {order[i]}
    ensures FirstFit(order, sp, f, regs1, i + 1)
  {
    var v := order[i];
    ghost var done := order[..i];
    regs1, spill1, busy1 := regs, spill, busy;
    var r: int;
    r, used1 := Choose(v in sp.crosses, f, busy, sp.From(v), used);
    FitNow(order, sp, f, regs, busy, i, r);
    FitNext(order, sp, f, regs, if r >= 0 then regs[v := r] else regs, i);
    if r >= 0 {
      PartAssign(done, sp, f, regs, used, spill, busy, v, r);
      regs1, busy1 := regs[v := r], busy[r := sp.To(v)];
    } else {
      NoneFree(f, v in sp.crosses, busy, sp.From(v));
      PartSpill(done, sp, f, regs, used, spill, busy, v);
      spill1 := spill + {v};
    }
  }

  lemma NextInOrder(order: seq<Value>, sp: Spans, i: nat)
    requires Ordered(order, sp) && i < |order|
    ensures order[..i + 1] == order[..i] + [order[i]] && order[i] !in order[..i]
    ensures forall w :: w in order[..i] ==> sp.From(w) <= sp.From(order[i])
  {
  }

  method Scan(order: seq<Value>, sp: Spans, ints: File, fps: File)
    returns (regOf: map<Value, nat>, fregOf: map<Value, nat>, spill: set<Value>, usedInt: set<nat>, usedFp: set<nat>)
    requires Ordered(order, sp) && forall v :: v in order ==> sp.From(v) <= sp.To(v)
    requires !ints.floating && fps.floating && ints.PoolsApart() && fps.PoolsApart()
    ensures Result(order, sp, ints, regOf, usedInt, spill)
    ensures Result(order, sp, fps, fregOf, usedFp, spill)
    ensures FirstFit(order, sp, ints, regOf, |order|) && FirstFit(order, sp, fps, fregOf, |order|)
    ensures forall v :: v in spill ==> v in order
  {
    regOf, fregOf, spill, usedInt, usedFp := map[], map[], {}, ints.used0, fps.used0;
    var busyInt, busyFp := ints.reserved, fps.reserved;
    for i := 0 to |order|
      invariant Part(order[..i], sp, ints, regOf, usedInt, spill, busyInt)
      invariant Part(order[..i], sp, fps, fregOf, usedFp, spill, busyFp)
      invariant FirstFit(order, sp, ints, regOf, i) && FirstFit(order, sp, fps, fregOf, i)
    {
      var v := order[i];
      ghost var spill0 := spill;
      NextInOrder(order, sp, i);
      if v.floating {
        fregOf, usedFp, spill, busyFp := Place(order, i, sp, fps, fregOf, usedFp, spill, busyFp);
        PartSkip(order[..i], sp, ints, regOf, usedInt, spill0, busyInt, v, spill);
      } else {
        regOf, usedInt, spill, busyInt := Place(order, i, sp, ints, regOf, usedInt, spill, busyInt);
        PartSkip(order[..i], sp, fps, fregOf, usedFp, spill0, busyFp, v, spill);
      }
    }
    assert order[..|order|] == order;
  }
}
