/** The allocation driver of the arm64 back end: coalesce copies, analyse, scan,
    and lay out the frame; and the end-to-end theorem for a whole function. */
module Allocation {
  import opened IL
  import opened Liveness
  import opened LinearScan
  import opened ScanOrder
  import opened RegMachine
  import opened CopyCoalescing
  import opened CoalescedRun

  // ---- the AAPCS64 register files ----

  predicate CalleeSaved(l: Loc) {
    match l
    case IntReg(n) => 19 <= n <= 28
    case FpReg(n) => 8 <= n <= 15
    case Slot(_) => false
  }

  /** What a call may destroy: x0-x18, x30, v0-v7 and v16-v31. */
  function Destroyed(): (r: set<Loc>)
    ensures forall l :: l in r <==> (l.IntReg? && (l.n <= 18 || l.n == 30)) || (l.FpReg? && l.n <= 31 && !(8 <= l.n <= 15))
  {
    (set n: nat | n <= 18 :: IntReg(n)) + {IntReg(30)} + (set n: nat | n <= 7 :: FpReg(n)) + (set n: nat | 16 <= n <= 31 :: FpReg(n))
  }

  function IntArgs(args: seq<Operand>): nat {
    if args == [] then 0 else (if IsFp(args[0]) then 0 else 1) + IntArgs(args[1..])
  }

  ghost predicate CallsFit(p: seq<Cmd>) {
    forall i :: 0 <= i < |p| && p[i].Call? ==> |p[i].args| <= 8
  }

  function Range(a: nat, b: nat): (r: seq<nat>)
    ensures |r| == (if a < b then b - a else 0) && forall k :: 0 <= k < |r| ==> r[k] == a + k
    ensures forall n :: n in r <==> a <= n < b
    decreases b - a
  {
    if a < b then [a] + Range(a + 1, b) else []
  }

  /** The first caller-saved integer home: past register 0, the incoming parameters, and
      the integer arguments of every call, and no higher than these make it. */
  ghost predicate IsLow(p: seq<Cmd>, incoming: nat, low: nat) {
    && 1 <= low && incoming <= low && (forall i :: 0 <= i < |p| && p[i].Call? ==> IntArgs(p[i].args) <= low)
    && (low == 1 || low == incoming || exists i :: 0 <= i < |p| && p[i].Call? && IntArgs(p[i].args) == low)
  }

  /** Caller-saved homes start above every argument register the function sets up
      or receives; the first `cached` callee-saved registers hold cached global
      addresses for the whole function. */
  method Pools(p: seq<Cmd>, incoming: nat, cached: nat) returns (ints: File, fps: File, low: nat)
    requires cached <= 3
    ensures IsLow(p, incoming, low)
    ensures !ints.floating && ints.caller == Range(low, 8) && ints.callee == Range(19 + cached, 29)
    ensures fps.floating && fps.caller == Range(18, 32) && fps.callee == Range(8, 16)
    ensures ints.PoolsApart() && fps.PoolsApart()
    ensures forall r :: r in ints.used0 <==> 19 <= r < 19 + cached
    ensures forall r :: r in ints.reserved <==> 19 <= r < 19 + cached
    ensures fps.used0 == {} && fps.reserved == map[]
  {
    var most := 0;
    for i := 0 to |p|
      invariant forall j :: 0 <= j < i && p[j].Call? ==> IntArgs(p[j].args) <= most
      invariant most == 0 || exists j :: 0 <= j < i && p[j].Call? && IntArgs(p[j].args) == most
    {
      if p[i].Call? && IntArgs(p[i].args) > most {
        most := IntArgs(p[i].args);
      }
    }
    low := most;
    if incoming > low { low := incoming; }
    if low < 1 { low := 1; }
    var busy: map<nat, nat>, used: set<nat> := map[], {};
    for k := 0 to cached
      invariant forall r :: r in used <==> 19 <= r < 19 + k
      invariant forall r :: r in busy <==> 19 <= r < 19 + k
    {
      busy, used := busy[19 + k := |p|], used + {19 + k};
    }
    ints := File(false, Range(low, 8), Range(19 + cached, 29), busy, used);
    fps := File(true, Range(18, 32), Range(8, 16), map[], {});
  }

  // ---- homes ----

  /** What the driver establishes about the homes it hands out. */
  ghost predicate Placed(order: seq<Value>, sp: Spans, ints: File, fps: File, regOf: map<Value, nat>, fregOf: map<Value, nat>,
                         usedInt: set<nat>, usedFp: set<nat>, spill: set<Value>)
  {
    && Result(order, sp, ints, regOf, usedInt, spill)
    && Result(order, sp, fps, fregOf, usedFp, spill)
    && (forall v :: v in spill ==> v in order)
  }

  /** Frame bytes for a value of the given size: at least eight, rounded up to eight. */
  function Room(size: map<Value, nat>, v: Value): (r: nat)
    ensures r >= 8 && Aligned(r) && (v in size ==> size[v] <= r)
  {
    var n := if v in size && size[v] > 8 then size[v] else 8;
    n + (8 - n % 8) % 8
  }

  predicate Aligned(n: nat) { n % 8 == 0 }

  lemma AlignedAdds(a: nat, b: nat)
    requires Aligned(a) && Aligned(b)
    ensures Aligned(a + b)
  {
  }

  ghost predicate SlotsOk(slotOf: map<Value, nat>, size: map<Value, nat>, base: nat, off: nat) {
    && base <= off && Aligned(off)
    && (forall v :: v in slotOf ==> SlotWithin(slotOf[v], Room(size, v), base, off))
    // slots are disjoint ranges that hold their values
    && (forall v, w :: v in slotOf && w in slotOf && v != w ==> RangesApart(slotOf[v], Room(size, v), slotOf[w], Room(size, w)))
  }

  predicate SlotWithin(at: nat, room: nat, base: nat, off: nat) { base <= at && at + room <= off && Aligned(at) }

  predicate RangesApart(a: nat, m: nat, b: nat, n: nat) { a + m <= b || b + n <= a }

  /** Bytes of the slots of the first `n` values. */
  function Bytes(slotted: set<Value>, size: map<Value, nat>, values: seq<Value>, n: nat): nat
    requires n <= |values|
  {
    if n == 0 then 0 else Bytes(slotted, size, values, n - 1) + if values[n - 1] in slotted then Room(size, values[n - 1]) else 0
  }

  lemma {:induction false} BytesStay(slotted: set<Value>, more: set<Value>, size: map<Value, nat>, values: seq<Value>, n: nat)
    requires n <= |values| && forall i :: 0 <= i < n ==> (values[i] in slotted <==> values[i] in more)
    ensures Bytes(slotted, size, values, n) == Bytes(more, size, values, n)
  {
    if n > 0 {
      BytesStay(slotted, more, size, values, n - 1);
    }
  }

  lemma OneMoreSlot(slotOf: map<Value, nat>, size: map<Value, nat>, base: nat, off: nat, v: Value)
    requires SlotsOk(slotOf, size, base, off) && v !in slotOf
    ensures SlotsOk(slotOf[v := off], size, base, off + Room(size, v))
  {
    var room := Room(size, v);
    AlignedAdds(off, room);
    forall w | w in slotOf
      ensures SlotWithin(slotOf[w], Room(size, w), base, off + room) && RangesApart(slotOf[w], Room(size, w), off, room)
      ensures RangesApart(off, room, slotOf[w], Room(size, w))
    {
      assert SlotWithin(slotOf[w], Room(size, w), base, off);
    }
  }

  lemma SlotsDiffer(slotOf: map<Value, nat>, size: map<Value, nat>, base: nat, off: nat)
    requires SlotsOk(slotOf, size, base, off)
    ensures forall v, w :: v in slotOf && w in slotOf && v != w ==> slotOf[v] != slotOf[w]
  {
  }

  /** The frame ends at the next multiple of sixteen. */
  function FrameSize(off: nat): (r: nat)
    ensures off <= r < off + 16 && r % 16 == 0
  {
    (off + 15) / 16 * 16
  }

  ghost predicate Stacked(slotOf: map<Value, nat>, size: map<Value, nat>, values: seq<Value>, base: nat, n: nat)
    requires n <= |values|
  {
    forall i :: 0 <= i < n && values[i] in slotOf ==> slotOf[values[i]] == base + Bytes(slotOf.Keys, size, values, i)
  }

  /** The first `n` values are laid out: those not in `regs` have consecutive slots. */
  ghost predicate Laid(slotOf: map<Value, nat>, size: map<Value, nat>, values: seq<Value>, regs: set<Value>, base: nat, off: nat, n: nat) {
    && n <= |values| && SlotsOk(slotOf, size, base, off)
    && (forall v :: v in slotOf <==> v in values[..n] && v !in regs)
    && Stacked(slotOf, size, values, base, n) && off == base + Bytes(slotOf.Keys, size, values, n)
  }

  /** Slots handed out, and where the next one would begin. */
  datatype Layout = Layout(slotOf: map<Value, nat>, off: nat)

  /** The layouts of the first `n` values. */
  ghost function Layouts(size: map<Value, nat>, values: seq<Value>, regs: set<Value>, base: nat, n: nat): iset<Layout> {
    iset x: Layout | Laid(x.slotOf, size, values, regs, base, x.off, n)
  }

  ghost predicate AllDiffer(values: seq<Value>) {
    forall i, j :: 0 <= i < j < |values| ==> values[i] != values[j]
  }

  lemma LaidSkip(slotOf: map<Value, nat>, size: map<Value, nat>, values: seq<Value>, regs: set<Value>, base: nat, off: nat, n: nat)
    requires Laid(slotOf, size, values, regs, base, off, n) && n < |values| && values[n] in regs
    ensures Laid(slotOf, size, values, regs, base, off, n + 1)
  {
    assert values[..n + 1] == values[..n] + [values[n]];
  }

  lemma LaidAdd(slotOf: map<Value, nat>, size: map<Value, nat>, values: seq<Value>, regs: set<Value>, base: nat, off: nat, n: nat)
    requires Laid(slotOf, size, values, regs, base, off, n) && AllDiffer(values) && n < |values| && values[n] !in regs
    ensures values[n] !in slotOf
    ensures Laid(slotOf[values[n] := off], size, values, regs, base, off + Room(size, values[n]), n + 1)
  {
    assert values[..n + 1] == values[..n] + [values[n]];
    assert values[n] !in values[..n];
    OneMoreSlot(slotOf, size, base, off, values[n]);
    var next := slotOf[values[n] := off];
    forall i | 0 <= i <= n
      ensures Bytes(next.Keys, size, values, i) == Bytes(slotOf.Keys, size, values, i)
    {
      BytesStay(slotOf.Keys, next.Keys, size, values, i);
    }
    assert Stacked(next, size, values, base, n + 1) by {
      forall i | 0 <= i < n + 1 && values[i] in next
        ensures next[values[i]] == base + Bytes(next.Keys, size, values, i)
      {
        assert i < n ==> values[i] != values[n];
      }
    }
  }

  lemma LaidStart(size: map<Value, nat>, values: seq<Value>, regs: set<Value>, base: nat)
    requires Aligned(base)
    ensures Layout(map[], base) in Layouts(size, values, regs, base, 0)
  {
    assert Laid(map[], size, values, regs, base, base, 0);
  }

  /** The layout with one more value considered. */
  function LayOutOne(x: Layout, size: map<Value, nat>, regs: set<Value>, v: Value): Layout {
    if v in regs then x else Layout(x.slotOf[v := x.off], x.off + Room(size, v))
  }

  lemma LaidNext(x: Layout, size: map<Value, nat>, values: seq<Value>, regs: set<Value>, base: nat, n: nat)
    requires x in Layouts(size, values, regs, base, n) && AllDiffer(values) && n < |values|
    ensures LayOutOne(x, size, regs, values[n]) in Layouts(size, values, regs, base, n + 1)
  {
    if values[n] in regs {
      NextSkipped(x, size, values, regs, base, n);
    } else {
      NextAdded(x, size, values, regs, base, n);
    }
  }

  lemma NextSkipped(x: Layout, size: map<Value, nat>, values: seq<Value>, regs: set<Value>, base: nat, n: nat)
    requires x in Layouts(size, values, regs, base, n) && n < |values| && values[n] in regs
    ensures x in Layouts(size, values, regs, base, n + 1)
  {
    LaidSkip(x.slotOf, size, values, regs, base, x.off, n);
  }

  lemma NextAdded(x: Layout, size: map<Value, nat>, values: seq<Value>, regs: set<Value>, base: nat, n: nat)
    requires x in Layouts(size, values, regs, base, n) && AllDiffer(values) && n < |values| && values[n] !in regs
    ensures Layout(x.slotOf[values[n] := x.off], x.off + Room(size, values[n])) in Layouts(size, values, regs, base, n + 1)
  {
    LaidAdd(x.slotOf, size, values, regs, base, x.off, n);
  }

  /** A frame slot of its size for each value left without a register. */
  method LayOutSlots(values: seq<Value>, size: map<Value, nat>, regs: set<Value>, base: nat) returns (x: Layout)
    requires Aligned(base) && AllDiffer(values)
    ensures Laid(x.slotOf, size, values, regs, base, x.off, |values|)
  {
    x := Layout(map[], base);
    LaidStart(size, values, regs, base);
    for i := 0 to |values|
      invariant x in Layouts(size, values, regs, base, i)
    {
      LaidNext(x, size, values, regs, base, i);
      x := LayOutOne(x, size, regs, values[i]);
    }
  }

  /** The callee-saved registers in use, in the order the prologue stores them. */
  method SavedRegisters(usedInt: set<nat>, usedFp: set<nat>) returns (saved: seq<Loc>)
    ensures forall l :: l in saved <==> CalleeSaved(l) && (if l.IntReg? then l.n in usedInt else l.n in usedFp)
    ensures forall i, j :: 0 <= i < j < |saved| ==> saved[i] != saved[j]
  {
    saved := [];
    for r := 19 to 29
      invariant forall l :: l in saved <==> l.IntReg? && 19 <= l.n < r && l.n in usedInt
      invariant forall i, j :: 0 <= i < j < |saved| ==> saved[i] != saved[j]
    {
      if r in usedInt {
        saved := saved + [IntReg(r)];
      }
    }
    for r := 8 to 16
      invariant forall l :: l in saved <==> (l.IntReg? && 19 <= l.n < 29 && l.n in usedInt) || (l.FpReg? && 8 <= l.n < r && l.n in usedFp)
      invariant forall i, j :: 0 <= i < j < |saved| ==> saved[i] != saved[j]
    {
      if r in usedFp {
        saved := saved + [FpReg(r)];
      }
    }
  }

  /** The result of allocating a function: homes, the registers the prologue
      saves (register `k` at offset 16 + 8k), and the frame size. */
  datatype Allocated = Allocated(home: Homes, saved: seq<Loc>, frame: nat)

  function SaveSlot(k: nat): Loc { Slot(16 + 8 * k) }

  /** A home is a slot above the save area, a saved callee-saved register, or a
      caller-saved register. */
  ghost predicate HomesProtected(a: Allocated) {
    forall v :: v in a.home ==>
      match a.home[v]
      case Slot(off) => 16 + 8 * |a.saved| <= off && off + 8 <= a.frame
      case l => if CalleeSaved(l) then l in a.saved else l in Destroyed()
  }

  ghost predicate FrameOk(a: Allocated) {
    && a.frame % 16 == 0
    && HomesProtected(a)
    && (forall l :: l in a.saved ==> CalleeSaved(l))
    && (forall i, j :: 0 <= i < j < |a.saved| ==> a.saved[i] != a.saved[j])
  }

  /** Frame slots are disjoint ranges that hold their values and lie inside the frame. */
  ghost predicate SlotsApart(a: Allocated, size: map<Value, nat>) {
    && (forall v :: v in a.home && a.home[v].Slot? ==> a.home[v].off + Room(size, v) <= a.frame && Aligned(a.home[v].off))
    && (forall v, w :: v in a.home && w in a.home && v != w && a.home[v].Slot? && a.home[w].Slot? ==>
          RangesApart(a.home[v].off, Room(size, v), a.home[w].off, Room(size, w)))
  }

  /** A register in which a parameter may arrive. */
  predicate Arrives(l: Loc, incoming: nat) {
    match l
    case IntReg(n) => n < incoming && n <= 7
    case FpReg(n) => n <= 7
    case Slot(_) => false
  }

  /** No home is a register in which a parameter may arrive. */
  ghost predicate ArrivalsFree(home: Homes, incoming: nat) {
    forall v, l :: v in home && Arrives(l, incoming) ==> home[v] != l
  }

  function HomeMap(regOf: map<Value, nat>, fregOf: map<Value, nat>, slotOf: map<Value, nat>): (home: Homes)
    ensures home.Keys == regOf.Keys + fregOf.Keys + slotOf.Keys
  {
    map v | v in regOf.Keys + fregOf.Keys + slotOf.Keys ::
      if v in regOf then IntReg(regOf[v]) else if v in fregOf then FpReg(fregOf[v]) else Slot(slotOf[v])
  }

  // ---- why the homes are good ----

  /** Everything known once the scan and the layout are done. */
  ghost predicate Scanned(p: seq<Cmd>, liveIn: Live, liveOut: Live, order: seq<Value>, sp: Spans, ints: File, fps: File,
                          regOf: map<Value, nat>, fregOf: map<Value, nat>, slotOf: map<Value, nat>)
  {
    && Analysed(p, liveIn, liveOut)
    && Covers(liveIn, liveOut, UsesOf(p), DefsOf(p), |p|, sp.start, sp.end)
    && (forall v :: v in sp.crosses <==> CrossesCall(p, liveIn, liveOut, |p|, v))
    && (forall v :: v in order <==> Occurs(p, |p|, v))
    && (forall v :: v in regOf ==> Allowed(sp, ints, v, regOf[v]))
    && (forall v :: v in fregOf ==> Allowed(sp, fps, v, fregOf[v]))
    && Disjoint(sp, regOf) && Disjoint(sp, fregOf)
    && (forall v :: v in order ==> v in regOf || v in fregOf || v in slotOf)
    && (forall v :: v in regOf ==> v !in fregOf)
    && (forall v, w :: v in slotOf && w in slotOf && v != w ==> slotOf[v] != slotOf[w])
  }

  /** Two values present at one command have different homes. */
  lemma PresentApart(p: seq<Cmd>, liveIn: Live, liveOut: Live, order: seq<Value>, sp: Spans, ints: File, fps: File,
                     regOf: map<Value, nat>, fregOf: map<Value, nat>, slotOf: map<Value, nat>, i: nat, v: Value, w: Value)
    requires Scanned(p, liveIn, liveOut, order, sp, ints, fps, regOf, fregOf, slotOf) && i < |p| && v != w
    requires Present(liveIn, liveOut, UsesOf(p), DefsOf(p), i, v) && Present(liveIn, liveOut, UsesOf(p), DefsOf(p), i, w)
    ensures var home := HomeMap(regOf, fregOf, slotOf); v in home && w in home ==> home[v] != home[w]
  {
    assert sp.From(v) <= i <= sp.To(v) && sp.From(w) <= i <= sp.To(w);
    assert !sp.Apart(v, w);
  }

  /** Whatever is present somewhere occurs in the command list. */
  lemma {:induction false} PresentOccurs(p: seq<Cmd>, liveIn: Live, liveOut: Live, i: nat, v: Value)
    requires Analysed(p, liveIn, liveOut) && Exact(p, UsesOf(p), DefsOf(p), liveIn) && i < |p|
    requires Present(liveIn, liveOut, UsesOf(p), DefsOf(p), i, v)
    ensures Occurs(p, |p|, v)
  {
    assert SolvesAt(p, UsesOf(p), DefsOf(p), liveIn, liveOut, i);
    if v in DefsOf(p)[i] || v in UsesOf(p)[i] {
    } else {
      assert LiveAt(p, UsesOf(p), DefsOf(p), i, v);
      var path :| UsePath(p, UsesOf(p), DefsOf(p), path, v) && path[0] == i;
      var last := path[|path| - 1];
      assert v in UsesOf(p)[last] && UsesOf(p)[last] == Uses(p[last]);
    }
  }

  lemma {:induction false} ArgLocsBelow(args: seq<Operand>, gp: nat, fp: nat)
    ensures forall l :: l in ArgLocs(args, gp, fp) ==>
      (l.IntReg? && l.n < gp + IntArgs(args)) || (l.FpReg? && l.n < fp + |args|)
    ensures IntArgs(args) <= |args|
    decreases |args|
  {
    if args != [] {
      if IsFp(args[0]) {
        ArgLocsBelow(args[1..], gp, fp + 1);
      } else {
        ArgLocsBelow(args[1..], gp + 1, fp);
      }
    }
  }

  /** How the homes came about: the order of the scan, the intervals it went by, and the
      first caller-saved integer home. */
  datatype Scanning = Scanning(order: seq<Value>, sp: Spans, low: nat)

  function IntRegs(a: nat, b: nat): seq<Loc> { seq(if a < b then b - a else 0, k requires 0 <= k => IntReg(a + k)) }
  function FpRegs(a: nat, b: nat): seq<Loc> { seq(if a < b then b - a else 0, k requires 0 <= k => FpReg(a + k)) }

  /** The registers a value may have, best first: for one live across a call only
      callee-saved ones, less those that cache global addresses. */
  function HomesFor(v: Value, crossing: bool, low: nat, cached: nat): seq<Loc> {
    if v.floating then (if crossing then [] else FpRegs(18, 32)) + FpRegs(8, 16)
    else (if crossing then [] else IntRegs(low, 8)) + IntRegs(19 + cached, 29)
  }

  /** A value scanned earlier still has `l` when the value at position `i` starts. */
  ghost predicate Occupied(sc: Scanning, home: Homes, i: nat, l: Loc)
    requires i < |sc.order|
  {
    exists j :: 0 <= j < i && OccupiedBy(sc.sp, home, sc.order[j], l, sc.sp.From(sc.order[i]))
  }

  ghost predicate OccupiedBy(sp: Spans, home: Homes, w: Value, l: Loc, s: nat) {
    w in home && home[w] == l && s <= sp.To(w)
  }

  /** The value at position `i` has the best register not occupied, and a slot only if
      every one is. */
  ghost predicate PlacedAt(sc: Scanning, home: Homes, cached: nat, i: nat)
    requires i < |sc.order|
  {
    var v := sc.order[i];
    var cands := HomesFor(v, v in sc.sp.crosses, sc.low, cached);
    && v in home
    && if home[v].Slot? then forall k :: 0 <= k < |cands| ==> Occupied(sc, home, i, cands[k])
       else exists k :: 0 <= k < |cands| && BestAt(sc, home, i, cands, k) && home[v] == cands[k]
  }

  ghost predicate BestAt(sc: Scanning, home: Homes, i: nat, cands: seq<Loc>, k: nat)
    requires i < |sc.order| && k < |cands|
  {
    !Occupied(sc, home, i, cands[k]) && forall j :: 0 <= j < k ==> Occupied(sc, home, i, cands[j])
  }

  /** The homes are those of a first-fit scan over the values of `p`, sorted by interval
      start and then by first appearance, with the exact intervals and crossings. */
  ghost predicate ScanGives(p: seq<Cmd>, liveIn: Live, liveOut: Live, incoming: nat, cached: nat, home: Homes, sc: Scanning) {
    && Analysed(p, liveIn, liveOut)
    && Covers(liveIn, liveOut, UsesOf(p), DefsOf(p), |p|, sc.sp.start, sc.sp.end)
    && (forall v :: v in sc.sp.crosses <==> CrossesCall(p, liveIn, liveOut, |p|, v))
    && (forall v :: v in sc.order <==> Occurs(p, |p|, v)) && Sorted(sc.order, sc.sp, Mentioned(p, |p|))
    && IsLow(p, incoming, sc.low)
    && (forall i :: 0 <= i < |sc.order| ==> PlacedAt(sc, home, cached, i))
    && (forall v :: v in home <==> v in sc.order)
  }

  /** The registers that cache global addresses. */
  predicate Caches(l: Loc, cached: nat) { l.IntReg? && 19 <= l.n < 19 + cached }

  /** A register that caches a global address is no value's home, and is saved. */
  ghost predicate CachesKept(a: Allocated, cached: nat) {
    forall l :: Caches(l, cached) ==> l in a.saved && forall v :: v in a.home ==> a.home[v] != l
  }

  /** Saved are the caching registers and the callee-saved homes, and nothing else. */
  ghost predicate SavedExactly(a: Allocated, cached: nat) {
    forall l :: l in a.saved <==> Caches(l, cached) || (CalleeSaved(l) && exists v :: v in a.home && a.home[v] == l)
  }

  ghost function SlotValues(home: Homes): set<Value> { set v | v in home && home[v].Slot? }

  /** Slots follow the save area in order of first appearance without gaps, and the frame
      ends at the next multiple of sixteen; it is empty if nothing asks for one. */
  ghost predicate FrameExact(p: seq<Cmd>, a: Allocated, size: map<Value, nat>) {
    exists values :: InOrderOf(values, Mentioned(p, |p|)) && FrameOver(p, a, size, values)
  }

  ghost predicate FrameOver(p: seq<Cmd>, a: Allocated, size: map<Value, nat>, values: seq<Value>) {
    var slotted := SlotValues(a.home);
    && (forall i :: 0 <= i < |values| && values[i] in slotted ==>
          a.home[values[i]].off == 16 + 8 * |a.saved| + Bytes(slotted, size, values, i))
    && a.frame == if a.saved == [] && slotted == {} && !HasCall(p) then 0
                  else FrameSize(16 + 8 * |a.saved| + Bytes(slotted, size, values, |values|))
  }

  predicate HasCall(p: seq<Cmd>) { exists i :: 0 <= i < |p| && p[i].Call? }

  ghost predicate PoolsOk(p: seq<Cmd>, ints: File, fps: File) {
    && (forall r :: r in ints.caller ==> r <= 7)
    && (forall r, i :: r in ints.caller && 0 <= i < |p| && p[i].Call? ==> IntArgs(p[i].args) <= r)
    && (forall r :: r in ints.callee ==> 19 <= r <= 28)
    && (forall r :: r in fps.caller ==> 18 <= r <= 31)
    && (forall r :: r in fps.callee ==> 8 <= r <= 15)
  }

  lemma CallsAreSafe(p: seq<Cmd>, liveIn: Live, liveOut: Live, order: seq<Value>, sp: Spans, ints: File, fps: File,
                     regOf: map<Value, nat>, fregOf: map<Value, nat>, slotOf: map<Value, nat>, i: nat)
    requires Scanned(p, liveIn, liveOut, order, sp, ints, fps, regOf, fregOf, slotOf) && PoolsOk(p, ints, fps)
    requires i < |p| && p[i].Call? && |p[i].args| <= 8
    ensures CallSafe(p[i], liveIn[i], liveOut[i], HomeMap(regOf, fregOf, slotOf), Destroyed())
  {
    var home := HomeMap(regOf, fregOf, slotOf);
    forall v | v in liveIn[i] && v in liveOut[i] && v in home
      ensures home[v] !in Destroyed()
    {
      assert CrossesCall(p, liveIn, liveOut, |p|, v);
    }
    ArgLocsBelow(p[i].args, 0, 0);
    forall v, l | v in home && l in ArgLocs(p[i].args, 0, 0)
      ensures home[v] != l
    {
      if v in regOf {
        assert Allowed(sp, ints, v, regOf[v]);
      } else if v in fregOf {
        assert Allowed(sp, fps, v, fregOf[v]);
      }
    }
  }

  lemma HomesAreGood(p: seq<Cmd>, liveIn: Live, liveOut: Live, order: seq<Value>, sp: Spans, ints: File, fps: File,
                     regOf: map<Value, nat>, fregOf: map<Value, nat>, slotOf: map<Value, nat>)
    requires Scanned(p, liveIn, liveOut, order, sp, ints, fps, regOf, fregOf, slotOf) && PoolsOk(p, ints, fps)
    requires Exact(p, UsesOf(p), DefsOf(p), liveIn) && CallsFit(p)
    ensures GoodHomes(p, liveIn, liveOut, HomeMap(regOf, fregOf, slotOf), Destroyed())
  {
    var home := HomeMap(regOf, fregOf, slotOf);
    forall i, v | 0 <= i < |p| && (v in liveIn[i] || v in liveOut[i] || v in Defs(p[i]))
      ensures v in home
    {
      assert DefsOf(p)[i] == Defs(p[i]);
      PresentOccurs(p, liveIn, liveOut, i, v);
    }
    forall i | 0 <= i < |p|
      ensures NoClash(home, Defs(p[i]), liveOut[i] + Elems(Defs(p[i])))
    {
      assert DefsOf(p)[i] == Defs(p[i]);
      forall d, w | d in Defs(p[i]) && w in liveOut[i] + Elems(Defs(p[i])) && d != w && d in home && w in home
        ensures home[d] != home[w]
      {
        PresentApart(p, liveIn, liveOut, order, sp, ints, fps, regOf, fregOf, slotOf, i, d, w);
      }
    }
    forall i | 0 <= i < |p| && p[i].Call?
      ensures CallSafe(p[i], liveIn[i], liveOut[i], home, Destroyed())
    {
      CallsAreSafe(p, liveIn, liveOut, order, sp, ints, fps, regOf, fregOf, slotOf, i);
    }
  }

  // ---- the driver ----

  lemma IntervalsNonEmpty(liveIn: Live, liveOut: Live, uses: seq<seq<Value>>, defs: seq<seq<Value>>, n: nat, sp: Spans, v: Value)
    requires n <= |liveIn| && n <= |liveOut| && n <= |uses| && n <= |defs|
    requires Covers(liveIn, liveOut, uses, defs, n, sp.start, sp.end)
    ensures sp.From(v) <= sp.To(v)
  {
    if v in sp.start {
      assert Present(liveIn, liveOut, uses, defs, sp.start[v], v);
    }
  }

  lemma ScanComplete(p: seq<Cmd>, liveIn: Live, liveOut: Live, order: seq<Value>, sp: Spans, ints: File, fps: File,
                     regOf: map<Value, nat>, fregOf: map<Value, nat>, slotOf: map<Value, nat>,
                     usedInt: set<nat>, usedFp: set<nat>, spill: set<Value>)
    requires Analysed(p, liveIn, liveOut)
    requires Covers(liveIn, liveOut, UsesOf(p), DefsOf(p), |p|, sp.start, sp.end)
    requires forall v :: v in sp.crosses <==> CrossesCall(p, liveIn, liveOut, |p|, v)
    requires forall v :: v in order <==> Occurs(p, |p|, v)
    requires Placed(order, sp, ints, fps, regOf, fregOf, usedInt, usedFp, spill) && !ints.floating && fps.floating
    requires forall v :: v in slotOf <==> v in order && v !in regOf && v !in fregOf
    requires forall v, w :: v in slotOf && w in slotOf && v != w ==> slotOf[v] != slotOf[w]
    ensures Scanned(p, liveIn, liveOut, order, sp, ints, fps, regOf, fregOf, slotOf)
  {
  }

  /** Allocate one function whose copies have already been renamed. */
  method Allocate(p: seq<Cmd>, size: map<Value, nat>, incoming: nat, cached: nat)
    returns (a: Allocated, ghost liveIn: Live, ghost liveOut: Live, ghost sc: Scanning)
    requires CallsFit(p) && cached <= 3
    ensures Analysed(p, liveIn, liveOut) && Exact(p, UsesOf(p), DefsOf(p), liveIn)
    ensures GoodHomes(p, liveIn, liveOut, a.home, Destroyed())
    ensures FrameOk(a) && SlotsApart(a, size) && ArrivalsFree(a.home, incoming)
    ensures ScanGives(p, liveIn, liveOut, incoming, cached, a.home, sc)
    ensures CachesKept(a, cached) && SavedExactly(a, cached) && FrameExact(p, a, size)
  {
    var uses, defs := UsesOf(p), DefsOf(p);
    var lin, lout := ComputeLiveness(p, uses, defs);
    liveIn, liveOut := lin, lout;
    var start, end, crosses := Intervals(p, lin, lout, uses, defs);
    var sp := Spans(start, end, crosses);
    var ints, fps, low := Pools(p, incoming, cached);
    var values := CollectValues(p);
    forall v ensures v in values <==> Occurs(p, |p|, v) { MentionedOccurs(p, |p|, v); }
    var order := SortByStart(values, sp, Mentioned(p, |p|));
    forall v ensures sp.From(v) <= sp.To(v) {
      IntervalsNonEmpty(lin, lout, uses, defs, |p|, sp, v);
    }
    var regOf, fregOf, spill, usedInt, usedFp := Scan(order, sp, ints, fps);
    ghost var slotOf, off;
    a, slotOf, off := LayOutFrame(p, values, size, regOf, fregOf, usedInt, usedFp);
    sc := Scanning(order, sp, low);
    HomesRight(p, lin, lout, sc, ints, fps, regOf, fregOf, slotOf, usedInt, usedFp, spill, size, incoming, cached, off, a);
    HomesFit(sc, ints, fps, regOf, fregOf, slotOf, cached, a.home);
    SavedRight(order, sp, ints, fps, regOf, fregOf, slotOf, usedInt, usedFp, spill, cached, a);
  }

  lemma HomesRight(p: seq<Cmd>, liveIn: Live, liveOut: Live, sc: Scanning, ints: File, fps: File,
                   regOf: map<Value, nat>, fregOf: map<Value, nat>, slotOf: map<Value, nat>,
                   usedInt: set<nat>, usedFp: set<nat>, spill: set<Value>, size: map<Value, nat>, incoming: nat, cached: nat, off: nat, a: Allocated)
    requires Analysed(p, liveIn, liveOut) && Exact(p, UsesOf(p), DefsOf(p), liveIn) && CallsFit(p) && cached <= 3
    requires Covers(liveIn, liveOut, UsesOf(p), DefsOf(p), |p|, sc.sp.start, sc.sp.end)
    requires forall v :: v in sc.sp.crosses <==> CrossesCall(p, liveIn, liveOut, |p|, v)
    requires forall v :: v in sc.order <==> Occurs(p, |p|, v)
    requires FilesAre(ints, fps, sc.low, cached) && IsLow(p, incoming, sc.low)
    requires Placed(sc.order, sc.sp, ints, fps, regOf, fregOf, usedInt, usedFp, spill)
    requires forall v :: v in slotOf <==> v in sc.order && v !in regOf && v !in fregOf
    requires forall v, w :: v in slotOf && w in slotOf && v != w ==> slotOf[v] != slotOf[w]
    requires SlotsOk(slotOf, size, 16 + 8 * |a.saved|, off) && (slotOf != map[] ==> off <= a.frame) && a.frame % 16 == 0
    requires a.home == HomeMap(regOf, fregOf, slotOf)
    requires forall l :: l in a.saved <==> CalleeSaved(l) && (if l.IntReg? then l.n in usedInt else l.n in usedFp)
    requires forall i, j :: 0 <= i < j < |a.saved| ==> a.saved[i] != a.saved[j]
    ensures GoodHomes(p, liveIn, liveOut, a.home, Destroyed())
    ensures FrameOk(a) && SlotsApart(a, size) && ArrivalsFree(a.home, incoming)
  {
    ScanComplete(p, liveIn, liveOut, sc.order, sc.sp, ints, fps, regOf, fregOf, slotOf, usedInt, usedFp, spill);
    HomesAreGood(p, liveIn, liveOut, sc.order, sc.sp, ints, fps, regOf, fregOf, slotOf);
    HomesArePlaced(sc.order, sc.sp, ints, fps, regOf, fregOf, usedInt, usedFp, spill, slotOf, size, a.saved, off, a);
    HomesApart(sc.sp, ints, fps, regOf, fregOf, slotOf, size, 16 + 8 * |a.saved|, off, incoming, a);
  }

  /** The register part of a file's candidates. */
  function Located(floating: bool, pool: seq<nat>): seq<Loc> {
    seq(|pool|, k requires 0 <= k < |pool| => if floating then FpReg(pool[k]) else IntReg(pool[k]))
  }

  /** The two files, as the pools are set up. */
  ghost predicate FilesAre(ints: File, fps: File, low: nat, cached: nat) {
    && !ints.floating && ints.caller == Range(low, 8) && ints.callee == Range(19 + cached, 29)
    && fps.floating && fps.caller == Range(18, 32) && fps.callee == Range(8, 16)
    && (forall r :: r in ints.reserved <==> 19 <= r < 19 + cached) && fps.reserved == map[]
  }

  lemma LocatedRange(a: nat, b: nat)
    ensures Located(false, Range(a, b)) == IntRegs(a, b) && Located(true, Range(a, b)) == FpRegs(a, b)
  {
  }

  lemma LocatedTwo(floating: bool, a: seq<nat>, b: seq<nat>)
    ensures Located(floating, a + b) == Located(floating, a) + Located(floating, b)
  {
  }

  lemma CandidatesAre(ints: File, fps: File, v: Value, crossing: bool, low: nat, cached: nat)
    requires FilesAre(ints, fps, low, cached)
    ensures HomesFor(v, crossing, low, cached) == Located(v.floating, Candidates(if v.floating then fps else ints, crossing))
  {
    var f := if v.floating then fps else ints;
    LocatedTwo(v.floating, f.caller, f.callee);
    LocatedRange(low, 8);
    LocatedRange(19 + cached, 29);
    LocatedRange(18, 32);
    LocatedRange(8, 16);
    assert [] + Located(v.floating, f.callee) == Located(v.floating, f.callee);
  }

  /** A candidate is blocked in its file exactly if it is occupied. */
  lemma BlockedIsOccupied(sc: Scanning, f: File, regs: map<Value, nat>, home: Homes, i: nat, r: nat)
    requires i < |sc.order| && BusyUntil(f.reserved, r) == -1
    requires forall v :: v in regs ==> v in home && home[v] == (if f.floating then FpReg(regs[v]) else IntReg(regs[v]))
    requires forall v :: v in home && v !in regs ==> home[v].Slot? || (if f.floating then home[v].IntReg? else home[v].FpReg?)
    ensures Blocked(sc.order, sc.sp, f, regs, i, r) <==> Occupied(sc, home, i, if f.floating then FpReg(r) else IntReg(r))
  {
    var l := if f.floating then FpReg(r) else IntReg(r);
    forall j | 0 <= j < i
      ensures HoldsTill(sc.order[j], sc.sp, regs, r, sc.sp.From(sc.order[i])) <==> OccupiedBy(sc.sp, home, sc.order[j], l, sc.sp.From(sc.order[i]))
    {
    }
  }

  lemma PlacedFrom(sc: Scanning, ints: File, fps: File, f: File, regs: map<Value, nat>, home: Homes, cached: nat, i: nat)
    requires i < |sc.order| && FilesAre(ints, fps, sc.low, cached) && f == (if sc.order[i].floating then fps else ints)
    requires FitAt(sc.order, sc.sp, f, regs, i) && sc.order[i] in home
    requires forall v :: v in regs ==> v in home && home[v] == (if f.floating then FpReg(regs[v]) else IntReg(regs[v]))
    requires forall v :: v in home && v !in regs ==> home[v].Slot? || (if f.floating then home[v].IntReg? else home[v].FpReg?)
    requires home[sc.order[i]].Slot? <==> sc.order[i] !in regs
    ensures PlacedAt(sc, home, cached, i)
  {
    var v := sc.order[i];
    var cross := v in sc.sp.crosses;
    var pool, cands := Candidates(f, cross), HomesFor(v, cross, sc.low, cached);
    CandidatesAre(ints, fps, v, cross, sc.low, cached);
    forall k | 0 <= k < |pool|
      ensures Blocked(sc.order, sc.sp, f, regs, i, pool[k]) <==> Occupied(sc, home, i, cands[k])
    {
      NotReserved(ints, fps, f, cross, sc.low, cached, k);
      BlockedIsOccupied(sc, f, regs, home, i, pool[k]);
    }
    FitIsPlaced(sc, f, regs, home, cached, i, pool, cands);
  }

  lemma NotReserved(ints: File, fps: File, f: File, cross: bool, low: nat, cached: nat, k: nat)
    requires FilesAre(ints, fps, low, cached) && (f == ints || f == fps) && k < |Candidates(f, cross)|
    ensures BusyUntil(f.reserved, Candidates(f, cross)[k]) == -1
  {
    assert Candidates(f, cross)[k] in Candidates(f, cross);
  }

  lemma FitIsPlaced(sc: Scanning, f: File, regs: map<Value, nat>, home: Homes, cached: nat, i: nat, pool: seq<nat>, cands: seq<Loc>)
    requires i < |sc.order| && FitAt(sc.order, sc.sp, f, regs, i) && sc.order[i] in home && sc.order[i].floating == f.floating
    requires pool == Candidates(f, sc.order[i] in sc.sp.crosses) && cands == HomesFor(sc.order[i], sc.order[i] in sc.sp.crosses, sc.low, cached)
    requires cands == Located(f.floating, pool)
    requires forall k :: 0 <= k < |pool| ==> (Blocked(sc.order, sc.sp, f, regs, i, pool[k]) <==> Occupied(sc, home, i, cands[k]))
    requires sc.order[i] in regs ==> home[sc.order[i]] == (if f.floating then FpReg(regs[sc.order[i]]) else IntReg(regs[sc.order[i]]))
    requires home[sc.order[i]].Slot? <==> sc.order[i] !in regs
    ensures PlacedAt(sc, home, cached, i)
  {
    var v := sc.order[i];
    if v in regs {
      var k :| 0 <= k < |pool| && FitsAt(sc.order, sc.sp, f, regs, i, pool, k) && regs[v] == pool[k];
      assert BestAt(sc, home, i, cands, k) && home[v] == cands[k];
    }
  }

  lemma HomesFit(sc: Scanning, ints: File, fps: File, regOf: map<Value, nat>, fregOf: map<Value, nat>, slotOf: map<Value, nat>, cached: nat, home: Homes)
    requires FilesAre(ints, fps, sc.low, cached) && home == HomeMap(regOf, fregOf, slotOf)
    requires FirstFit(sc.order, sc.sp, ints, regOf, |sc.order|) && FirstFit(sc.order, sc.sp, fps, fregOf, |sc.order|)
    requires forall v :: v in regOf ==> v in sc.order && !v.floating
    requires forall v :: v in fregOf ==> v in sc.order && v.floating
    requires forall v :: v in slotOf <==> v in sc.order && v !in regOf && v !in fregOf
    ensures forall v :: v in home <==> v in sc.order
    ensures forall i :: 0 <= i < |sc.order| ==> PlacedAt(sc, home, cached, i)
  {
    forall i | 0 <= i < |sc.order|
      ensures PlacedAt(sc, home, cached, i)
    {
      if sc.order[i].floating {
        assert FitAt(sc.order, sc.sp, fps, fregOf, i);
        PlacedFrom(sc, ints, fps, fps, fregOf, home, cached, i);
      } else {
        assert FitAt(sc.order, sc.sp, ints, regOf, i);
        PlacedFrom(sc, ints, fps, ints, regOf, home, cached, i);
      }
    }
  }

  lemma SavedRight(order: seq<Value>, sp: Spans, ints: File, fps: File, regOf: map<Value, nat>, fregOf: map<Value, nat>, slotOf: map<Value, nat>,
                   usedInt: set<nat>, usedFp: set<nat>, spill: set<Value>, cached: nat, a: Allocated)
    requires Placed(order, sp, ints, fps, regOf, fregOf, usedInt, usedFp, spill) && a.home == HomeMap(regOf, fregOf, slotOf) && cached <= 3
    requires ints.callee == Range(19 + cached, 29) && fps.callee == Range(8, 16) && fps.used0 == {}
    requires (forall r :: r in ints.caller ==> r <= 7) && (forall r :: r in fps.caller ==> 18 <= r <= 31)
    requires forall r :: r in ints.used0 <==> 19 <= r < 19 + cached
    requires forall v :: v in slotOf ==> v !in regOf && v !in fregOf
    requires forall v :: v in regOf ==> v !in fregOf
    requires forall l :: l in a.saved <==> CalleeSaved(l) && (if l.IntReg? then l.n in usedInt else l.n in usedFp)
    ensures CachesKept(a, cached) && SavedExactly(a, cached)
  {
    forall v | v in a.home
      ensures match a.home[v]
              case IntReg(n) => v in regOf && regOf[v] == n && !(19 <= n < 19 + cached)
              case FpReg(n) => v in fregOf && fregOf[v] == n
              case Slot(_) => true
    {
      if v in regOf { assert Allowed(sp, ints, v, regOf[v]); }
    }
    forall l | CalleeSaved(l)
      ensures l in a.saved <==> Caches(l, cached) || exists v :: v in a.home && a.home[v] == l
    {
      if l in a.saved {
        SavedHasUse(ints, fps, regOf, fregOf, slotOf, usedInt, usedFp, cached, a, l);
      }
      if v :| v in a.home && a.home[v] == l {
        if l.IntReg? { assert Allowed(sp, ints, v, regOf[v]); } else { assert Allowed(sp, fps, v, fregOf[v]); }
      }
      if Caches(l, cached) {
        assert l.n in ints.used0;
      }
    }
  }

  lemma SavedHasUse(ints: File, fps: File, regOf: map<Value, nat>, fregOf: map<Value, nat>, slotOf: map<Value, nat>,
                    usedInt: set<nat>, usedFp: set<nat>, cached: nat, a: Allocated, l: Loc)
    requires UsedExactly(ints, regOf, usedInt) && UsedExactly(fps, fregOf, usedFp) && a.home == HomeMap(regOf, fregOf, slotOf)
    requires fps.used0 == {} && forall r :: r in ints.used0 <==> 19 <= r < 19 + cached
    requires forall v :: v in regOf ==> v !in fregOf
    requires CalleeSaved(l) && (if l.IntReg? then l.n in usedInt else l.n in usedFp)
    ensures Caches(l, cached) || exists v :: v in a.home && a.home[v] == l
  {
    if l.IntReg? {
      if l.n !in ints.used0 {
        var v :| v in regOf && regOf[v] == l.n && l.n in ints.callee;
        assert v in a.home && a.home[v] == l;
      }
    } else {
      var v :| v in fregOf && fregOf[v] == l.n && l.n in fps.callee;
      assert v in a.home && a.home[v] == l;
    }
  }

  /** The save area, then the slots, then padding; and every value's home. */
  method LayOutFrame(p: seq<Cmd>, values: seq<Value>, size: map<Value, nat>, regOf: map<Value, nat>, fregOf: map<Value, nat>, usedInt: set<nat>, usedFp: set<nat>)
    returns (a: Allocated, ghost slotOf: map<Value, nat>, ghost off: nat)
    requires InOrderOf(values, Mentioned(p, |p|))
    ensures SlotsOk(slotOf, size, 16 + 8 * |a.saved|, off) && (slotOf != map[] ==> off <= a.frame) && a.frame % 16 == 0
    ensures forall v :: v in slotOf <==> v in values && v !in regOf && v !in fregOf
    ensures forall v, w :: v in slotOf && w in slotOf && v != w ==> slotOf[v] != slotOf[w]
    ensures a.home == HomeMap(regOf, fregOf, slotOf)
    ensures forall l :: l in a.saved <==> CalleeSaved(l) && (if l.IntReg? then l.n in usedInt else l.n in usedFp)
    ensures forall i, j :: 0 <= i < j < |a.saved| ==> a.saved[i] != a.saved[j]
    ensures FrameOver(p, a, size, values)
  {
    var saved := SavedRegisters(usedInt, usedFp);
    var base := 16 + 8 * |saved|;
    OrderDiffers(values, Mentioned(p, |p|));
    var x := LayOutSlots(values, size, regOf.Keys + fregOf.Keys, base);
    slotOf, off := x.slotOf, x.off;
    SlotsDiffer(slotOf, size, base, off);
    assert values[..|values|] == values;
    var home := HomeMap(regOf, fregOf, x.slotOf);
    var frame := if saved == [] && x.slotOf == map[] && !HasCall(p) then 0 else FrameSize(x.off);
    a := Allocated(home, saved, frame);
    FrameRight(p, a, size, values, regOf, fregOf, slotOf, off);
  }

  lemma OrderDiffers(values: seq<Value>, s: seq<Value>)
    requires InOrderOf(values, s)
    ensures AllDiffer(values)
  {
    forall i, j | 0 <= i < j < |values|
      ensures values[i] != values[j]
    {
      assert First(s, values[i]) < First(s, values[j]);
    }
  }

  lemma SlotKeys(regOf: map<Value, nat>, fregOf: map<Value, nat>, slotOf: map<Value, nat>)
    requires forall v :: v in slotOf ==> v !in regOf && v !in fregOf
    ensures SlotValues(HomeMap(regOf, fregOf, slotOf)) == slotOf.Keys
    ensures forall v :: v in slotOf ==> HomeMap(regOf, fregOf, slotOf)[v] == Slot(slotOf[v])
  {
  }

  lemma FrameRight(p: seq<Cmd>, a: Allocated, size: map<Value, nat>, values: seq<Value>,
                   regOf: map<Value, nat>, fregOf: map<Value, nat>, slotOf: map<Value, nat>, off: nat)
    requires a.home == HomeMap(regOf, fregOf, slotOf) && forall v :: v in slotOf ==> v !in regOf && v !in fregOf
    requires Stacked(slotOf, size, values, 16 + 8 * |a.saved|, |values|) && off == 16 + 8 * |a.saved| + Bytes(slotOf.Keys, size, values, |values|)
    requires a.frame == if a.saved == [] && slotOf == map[] && !HasCall(p) then 0 else FrameSize(off)
    ensures FrameOver(p, a, size, values)
  {
    SlotKeys(regOf, fregOf, slotOf);
    assert slotOf == map[] <==> slotOf.Keys == {};
  }

  lemma HomesApart(sp: Spans, ints: File, fps: File, regOf: map<Value, nat>, fregOf: map<Value, nat>, slotOf: map<Value, nat>,
                   size: map<Value, nat>, base: nat, off: nat, incoming: nat, a: Allocated)
    requires SlotsOk(slotOf, size, base, off) && (slotOf != map[] ==> off <= a.frame) && a.home == HomeMap(regOf, fregOf, slotOf)
    requires (forall v :: v in regOf ==> Allowed(sp, ints, v, regOf[v])) && (forall v :: v in fregOf ==> Allowed(sp, fps, v, fregOf[v]))
    requires forall r :: r in ints.caller ==> incoming <= r <= 7
    requires forall r :: r in ints.callee ==> 19 <= r <= 28
    requires forall r :: r in fps.caller ==> 18 <= r <= 31
    requires forall r :: r in fps.callee ==> 8 <= r <= 15
    ensures SlotsApart(a, size) && ArrivalsFree(a.home, incoming)
  {
    forall v, l | v in a.home && Arrives(l, incoming)
      ensures a.home[v] != l
    {
      if v in regOf {
        assert Allowed(sp, ints, v, regOf[v]);
      } else if v in fregOf {
        assert Allowed(sp, fps, v, fregOf[v]);
      }
    }
  }

  lemma HomesArePlaced(order: seq<Value>, sp: Spans, ints: File, fps: File, regOf: map<Value, nat>, fregOf: map<Value, nat>,
                       usedInt: set<nat>, usedFp: set<nat>, spill: set<Value>, slotOf: map<Value, nat>, size: map<Value, nat>,
                       saved: seq<Loc>, off: nat, a: Allocated)
    requires Placed(order, sp, ints, fps, regOf, fregOf, usedInt, usedFp, spill)
    requires SlotsOk(slotOf, size, 16 + 8 * |saved|, off) && (slotOf != map[] ==> off <= a.frame)
    requires forall l :: l in saved <==> CalleeSaved(l) && (if l.IntReg? then l.n in usedInt else l.n in usedFp)
    requires a.home == HomeMap(regOf, fregOf, slotOf) && a.saved == saved
    requires forall r :: r in ints.caller ==> r <= 7
    requires forall r :: r in ints.callee ==> 19 <= r <= 28
    requires forall r :: r in fps.caller ==> 18 <= r <= 31
    requires forall r :: r in fps.callee ==> 8 <= r <= 15
    ensures HomesProtected(a)
  {
    forall v | v in a.home
      ensures match a.home[v]
              case Slot(o) => 16 + 8 * |a.saved| <= o && o + 8 <= a.frame
              case l => if CalleeSaved(l) then l in a.saved else l in Destroyed()
    {
      if v in regOf {
        assert Allowed(sp, ints, v, regOf[v]);
      } else if v in fregOf {
        assert Allowed(sp, fps, v, fregOf[v]);
      }
    }
  }

  // ---- whole functions ----

  /** The prologue stores each saved register in its slot, `k` of them already done. */
  function Save(saved: seq<Loc>, k: nat, cells: Cells): Cells
    decreases |saved| - k
  {
    if k >= |saved| then cells else Save(saved, k + 1, cells[SaveSlot(k) := Get(cells, saved[k])])
  }

  function Restore(saved: seq<Loc>, k: nat, cells: Cells): Cells
    decreases |saved| - k
  {
    if k >= |saved| then cells else Restore(saved, k + 1, cells[saved[k] := Get(cells, SaveSlot(k))])
  }

  lemma {:induction false} SaveStores(saved: seq<Loc>, k: nat, cells: Cells)
    requires k <= |saved| && forall l :: l in saved ==> CalleeSaved(l)
    ensures forall l: Loc :: !l.Slot? ==> Get(Save(saved, k, cells), l) == Get(cells, l)
    ensures forall j: nat :: j < k ==> Get(Save(saved, k, cells), SaveSlot(j)) == Get(cells, SaveSlot(j))
    ensures forall j: nat :: k <= j < |saved| ==> Get(Save(saved, k, cells), SaveSlot(j)) == Get(cells, saved[j])
    decreases |saved| - k
  {
    if k < |saved| {
      var cells1 := cells[SaveSlot(k) := Get(cells, saved[k])];
      SaveStores(saved, k + 1, cells1);
      assert saved[k] in saved;
      assert forall j: nat :: k < j < |saved| ==> saved[j] in saved;
    }
  }

  lemma {:induction false} RestoreLoads(saved: seq<Loc>, k: nat, cells: Cells)
    requires k <= |saved| && forall l :: l in saved ==> CalleeSaved(l)
    requires forall i, j :: 0 <= i < j < |saved| ==> saved[i] != saved[j]
    ensures forall l :: l !in saved[k..] ==> Get(Restore(saved, k, cells), l) == Get(cells, l)
    ensures forall j: nat :: k <= j < |saved| ==> Get(Restore(saved, k, cells), saved[j]) == Get(cells, SaveSlot(j))
    decreases |saved| - k
  {
    if k < |saved| {
      var cells1 := cells[saved[k] := Get(cells, SaveSlot(k))];
      RestoreLoads(saved, k + 1, cells1);
      assert saved[k..] == [saved[k]] + saved[k + 1..];
      assert saved[k] in saved && saved[k] !in saved[k + 1..];
    }
  }

  /** Locations the running body never writes. */
  ghost predicate Untouched(p: seq<Cmd>, home: Homes, clobbered: set<Loc>, l: Loc) {
    && (forall v :: v in home ==> home[v] != l)
    && l !in clobbered
    && (forall i :: 0 <= i < |p| && p[i].Call? ==> l !in ArgLocs(p[i].args, 0, 0))
  }

  ghost predicate StillHolds(m: MConfig, l: Loc, x: int) {
    match m
    case MAt(_, cells, _) => Get(cells, l) == x
    case MReturned(_, cells, _) => Get(cells, l) == x
    case _ => true
  }

  lemma {:induction false} WriteElsewhere(I: Interp, home: Homes, cells: Cells, mem: Mem, os: seq<Operand>, xs: seq<int>, l: Loc)
    requires forall v :: v in home ==> home[v] != l
    ensures Get(MWriteAll(I, home, cells, mem, os, xs).0, l) == Get(cells, l)
    decreases |os|
  {
    if os != [] {
      var (cells1, mem1) := MWriteOne(I, home, cells, mem, os[0], if xs == [] then 0 else xs[0]);
      WriteElsewhere(I, home, cells1, mem1, os[1..], if xs == [] then [] else xs[1..], l);
    }
  }

  lemma {:induction false} MarshalElsewhere(I: Interp, home: Homes, cells: Cells, mem: Mem, args: seq<Operand>, locs: seq<Loc>, l: Loc)
    requires |args| == |locs| && l !in locs
    ensures Get(Marshal(I, home, cells, mem, args, locs), l) == Get(cells, l)
    decreases |args|
  {
    if args != [] {
      assert locs[0] in locs && forall k :: k in locs[1..] ==> k in locs;
      MarshalElsewhere(I, home, cells[locs[0] := MEval(I, home, cells, mem, args[0])], mem, args[1..], locs[1..], l);
    }
  }

  lemma StepLeaves(p: seq<Cmd>, I: Interp, home: Homes, clobbered: set<Loc>, m: MConfig, junk: Loc -> int, l: Loc, x: int)
    requires Untouched(p, home, clobbered, l) && StillHolds(m, l, x)
    ensures StillHolds(MStep(p, I, home, clobbered, m, junk), l, x)
  {
    if m.MAt? && m.pc < |p| {
      var MAt(pc, cells, mem) := m;
      match p[pc] {
        case Op(code, ins, outs) =>
          var (xs, mem1) := ExecOp(I, code, MEvalAll(I, home, cells, mem, ins), mem);
          WriteElsewhere(I, home, cells, mem1, outs, xs, l);
        case Call(fn, args, ret) =>
          var locs := ArgLocs(args, 0, 0);
          var moved := Marshal(I, home, cells, mem, args, locs);
          MarshalElsewhere(I, home, cells, mem, args, locs, l);
          var (xs, mem1) := I.call(fn, ReadAll(moved, locs), mem);
          WriteElsewhere(I, home, Clobber(moved, clobbered, junk), mem1, ret, xs, l);
        case _ =>
      }
    }
  }

  lemma {:induction false} RunLeaves(p: seq<Cmd>, I: Interp, home: Homes, clobbered: set<Loc>, m: MConfig, junk: (nat, Loc) -> int, n: nat, l: Loc, x: int)
    requires Untouched(p, home, clobbered, l) && StillHolds(m, l, x)
    ensures StillHolds(MRun(p, I, home, clobbered, m, junk, n), l, x)
  {
    if n > 0 {
      RunLeaves(p, I, home, clobbered, m, junk, n - 1, l, x);
      StepLeaves(p, I, home, clobbered, MRun(p, I, home, clobbered, m, junk, n - 1), k => junk(n - 1, k), l, x);
    }
  }

  lemma Unreached(p: seq<Cmd>, a: Allocated, l: Loc)
    requires FrameOk(a) && CallsFit(p)
    requires (exists k: nat :: k < |a.saved| && l == SaveSlot(k)) || (CalleeSaved(l) && l !in a.saved)
    ensures Untouched(p, a.home, Destroyed(), l)
  {
    forall i | 0 <= i < |p| && p[i].Call?
      ensures l !in ArgLocs(p[i].args, 0, 0)
    {
      ArgLocsBelow(p[i].args, 0, 0);
    }
  }

  // ---- cached global addresses ----

  /** Whatever a register that caches a global address holds when the body starts, it
      holds after any number of steps. */
  lemma CacheStays(p: seq<Cmd>, I: Interp, a: Allocated, cached: nat, cells: Cells, mem: Mem, junk: (nat, Loc) -> int, n: nat, l: Loc)
    requires CachesKept(a, cached) && CallsFit(p) && Caches(l, cached) && cached <= 3
    ensures StillHolds(MRun(p, I, a.home, Destroyed(), MAt(0, cells, mem), junk, n), l, Get(cells, l))
  {
    forall i | 0 <= i < |p| && p[i].Call?
      ensures l !in ArgLocs(p[i].args, 0, 0)
    {
      ArgLocsBelow(p[i].args, 0, 0);
    }
    RunLeaves(p, I, a.home, Destroyed(), MAt(0, cells, mem), junk, n, l, Get(cells, l));
  }

  // ---- parameters ----

  /** The function begins by loading its parameters: command `k` makes `params[k]` what
      the operator `ops[k]` gives. */
  ghost predicate LoadsFirst(p: seq<Cmd>, params: seq<Value>, ops: seq<nat>) {
    |params| == |ops| <= |p| && forall k :: 0 <= k < |params| ==> p[k] == Op(Other(ops[k]), [], [Temp(params[k])])
  }

  function ParamOperands(params: seq<Value>): seq<Operand> {
    seq(|params|, k requires 0 <= k < |params| => Temp(params[k]))
  }

  /** The registers in which the parameters arrive. */
  function ArrivalLocs(params: seq<Value>): (r: seq<Loc>)
    ensures |r| == |params|
  {
    ArgLocs(ParamOperands(params), 0, 0)
  }

  /** Counting the integer parameters, as the driver does, covers all of them. */
  lemma ArrivalsCounted(params: seq<Value>, incoming: nat)
    requires |params| <= 8 && IntArgs(ParamOperands(params)) <= incoming
    ensures forall l :: l in ArrivalLocs(params) ==> Arrives(l, incoming)
  {
    ArgLocsBelow(ParamOperands(params), 0, 0);
  }

  /** The operators give what arrived. */
  ghost predicate GivesArrivals(I: Interp, ops: seq<nat>, locs: seq<Loc>, cells: Cells) {
    |ops| == |locs| && forall k, mem :: 0 <= k < |ops| ==> I.other(ops[k], [], mem) == ([Get(cells, locs[k])], mem)
  }

  /** `n` loads have been done and every arrival register is as it was. */
  ghost predicate Waiting(m: MConfig, n: nat, cells: Cells, mem: Mem, incoming: nat) {
    m.MAt? && m.pc == n && m.mem == mem && forall l :: Arrives(l, incoming) ==> Get(m.cells, l) == Get(cells, l)
  }

  /** One load is a move out of the register its parameter arrived in. */
  lemma LoadIsMove(p: seq<Cmd>, I: Interp, home: Homes, clobbered: set<Loc>, params: seq<Value>, ops: seq<nat>,
                   incoming: nat, cells: Cells, m: MConfig, mem: Mem, junk: Loc -> int, n: nat)
    requires LoadsFirst(p, params, ops) && n < |params| && Waiting(m, n, cells, mem, incoming)
    requires ArrivalsFree(home, incoming) && Arrives(ArrivalLocs(params)[n], incoming)
    requires GivesArrivals(I, ops, ArrivalLocs(params), cells)
    ensures MStep(p, I, home, clobbered, m, junk)
            == MAt(n + 1, if params[n] in home then m.cells[home[params[n]] := Get(m.cells, ArrivalLocs(params)[n])] else m.cells, mem)
    ensures Waiting(MStep(p, I, home, clobbered, m, junk), n + 1, cells, mem, incoming)
  {
    LoadMoves(p, I, home, clobbered, params[n], ops[n], m, junk);
  }

  lemma {:induction false} ArrivalsWait(p: seq<Cmd>, I: Interp, home: Homes, clobbered: set<Loc>, params: seq<Value>, ops: seq<nat>,
                                        incoming: nat, cells: Cells, mem: Mem, junk: (nat, Loc) -> int, n: nat)
    requires LoadsFirst(p, params, ops) && n <= |params|
    requires ArrivalsFree(home, incoming) && forall l :: l in ArrivalLocs(params) ==> Arrives(l, incoming)
    requires GivesArrivals(I, ops, ArrivalLocs(params), cells)
    ensures Waiting(MRun(p, I, home, clobbered, MAt(0, cells, mem), junk, n), n, cells, mem, incoming)
  {
    if n > 0 {
      ArrivalsWait(p, I, home, clobbered, params, ops, incoming, cells, mem, junk, n - 1);
      assert ArrivalLocs(params)[n - 1] in ArrivalLocs(params);
      LoadIsMove(p, I, home, clobbered, params, ops, incoming, cells,
                 MRun(p, I, home, clobbered, MAt(0, cells, mem), junk, n - 1), mem, l => junk(n - 1, l), n - 1);
    }
  }

  /** Loading parameters one after the other never overwrites one that is still to be
      loaded: each load is a move out of the register its parameter arrived in, which
      still holds what arrived. */
  lemma ParametersArrive(p: seq<Cmd>, I: Interp, home: Homes, clobbered: set<Loc>, params: seq<Value>, ops: seq<nat>,
                         incoming: nat, cells: Cells, mem: Mem, junk: (nat, Loc) -> int, n: nat)
    requires LoadsFirst(p, params, ops) && n < |params| <= 8 && IntArgs(ParamOperands(params)) <= incoming
    requires ArrivalsFree(home, incoming) && GivesArrivals(I, ops, ArrivalLocs(params), cells)
    ensures var m := MRun(p, I, home, clobbered, MAt(0, cells, mem), junk, n);
            && Waiting(m, n, cells, mem, incoming) && Arrives(ArrivalLocs(params)[n], incoming)
            && MRun(p, I, home, clobbered, MAt(0, cells, mem), junk, n + 1)
               == MAt(n + 1, if params[n] in home then m.cells[home[params[n]] := Get(cells, ArrivalLocs(params)[n])] else m.cells, mem)
  {
    ArrivalsCounted(params, incoming);
    ArrivalsWait(p, I, home, clobbered, params, ops, incoming, cells, mem, junk, n);
    assert ArrivalLocs(params)[n] in ArrivalLocs(params);
    LoadIsMove(p, I, home, clobbered, params, ops, incoming, cells,
               MRun(p, I, home, clobbered, MAt(0, cells, mem), junk, n), mem, l => junk(n, l), n);
  }

  lemma LoadMoves(p: seq<Cmd>, I: Interp, home: Homes, clobbered: set<Loc>, v: Value, op: nat, m: MConfig, junk: Loc -> int)
    requires m.MAt? && m.pc < |p| && p[m.pc] == Op(Other(op), [], [Temp(v)]) && |I.other(op, [], m.mem).0| == 1
    ensures var x := I.other(op, [], m.mem);
            MStep(p, I, home, clobbered, m, junk) == MAt(m.pc + 1, if v in home then m.cells[home[v] := x.0[0]] else m.cells, x.1)
  {
    assert MEvalAll(I, home, m.cells, m.mem, []) == [];
    var x := I.other(op, [], m.mem);
    assert [Temp(v)][1..] == [] && x.0[1..] == [];
    assert MWriteAll(I, home, m.cells, x.1, [Temp(v)], x.0) == MWriteOne(I, home, m.cells, x.1, Temp(v), x.0[0]);
  }

  /** The callee-saved rule: entered through the prologue and left through the
      epilogue, a function returns every callee-saved register as it found it. */
  lemma CalleeSavedRestored(p: seq<Cmd>, I: Interp, a: Allocated, cells0: Cells, mem: Mem, junk: (nat, Loc) -> int, n: nat, l: Loc)
    requires FrameOk(a) && CallsFit(p) && CalleeSaved(l)
    ensures var m := MRun(p, I, a.home, Destroyed(), MAt(0, Save(a.saved, 0, cells0), mem), junk, n);
            m.MReturned? ==> Get(Restore(a.saved, 0, m.cells), l) == Get(cells0, l)
  {
    var entry := Save(a.saved, 0, cells0);
    var m := MRun(p, I, a.home, Destroyed(), MAt(0, entry, mem), junk, n);
    SaveStores(a.saved, 0, cells0);
    if m.MReturned? {
      RestoreLoads(a.saved, 0, m.cells);
      if l in a.saved {
        var k: nat :| k < |a.saved| && a.saved[k] == l;
        Unreached(p, a, SaveSlot(k));
        RunLeaves(p, I, a.home, Destroyed(), MAt(0, entry, mem), junk, n, SaveSlot(k), Get(entry, SaveSlot(k)));
      } else {
        Unreached(p, a, l);
        RunLeaves(p, I, a.home, Destroyed(), MAt(0, entry, mem), junk, n, l, Get(entry, l));
      }
    }
  }

  /** The observable part of two configurations agrees. */
  ghost predicate SameOutcome(c: Config, m: MConfig) {
    match c
    case At(pc, _, mem) => m.MAt? && m.pc == pc && m.mem == mem
    case Returned(result, mem) => m.MReturned? && m.result == result && m.mem == mem
    case FellOff(mem) => m == MFellOff(mem)
    case NoTarget(mem) => m == MNoTarget(mem)
  }

  /** End to end: coalescing followed by allocation is correct.  For any operation
      and call semantics, any contents left in caller-saved registers by calls,
      and any number of steps, the allocated function is at the same command
      with the same memory as the original one, or has returned the same result
      and, once the epilogue has run, every callee-saved register. */
  lemma AllocatedFunctionCorrect(p: seq<Cmd>, coal: Coalesced, a: Allocated, liveIn: Live, liveOut: Live,
                                 I: Interp, env: Env, mem: Mem, cells0: Cells, junk: (nat, Loc) -> int, n: nat)
    requires Safe(p, coal) && CallsFit(Rename(coal, p))
    requires Analysed(Rename(coal, p), liveIn, liveOut)
    requires GoodHomes(Rename(coal, p), liveIn, liveOut, a.home, Destroyed()) && FrameOk(a)
    requires p != [] ==> Agree(a.home, liveIn[0], env, Save(a.saved, 0, cells0))
    ensures var m := MRun(Rename(coal, p), I, a.home, Destroyed(), MAt(0, Save(a.saved, 0, cells0), mem), junk, n);
            && SameOutcome(Run(p, I, At(0, env, mem), n), m)
            && (m.MReturned? ==> forall l :: CalleeSaved(l) ==> Get(Restore(a.saved, 0, m.cells), l) == Get(cells0, l))
  {
    var q := Rename(coal, p);
    RenamedRunIsSame(p, I, coal, env, mem, n);
    RunSimulates(q, I, liveIn, liveOut, a.home, Destroyed(), At(0, env, mem), MAt(0, Save(a.saved, 0, cells0), mem), junk, n);
    forall l | CalleeSaved(l)
      ensures var m := MRun(q, I, a.home, Destroyed(), MAt(0, Save(a.saved, 0, cells0), mem), junk, n);
              m.MReturned? ==> Get(Restore(a.saved, 0, m.cells), l) == Get(cells0, l)
    {
      CalleeSavedRestored(q, I, a, cells0, mem, junk, n, l);
    }
  }

  lemma RenameCallsFit(p: seq<Cmd>, coal: Coalesced)
    requires CallsFit(p)
    ensures CallsFit(Rename(coal, p))
  {
    forall i | 0 <= i < |p| && Rename(coal, p)[i].Call?
      ensures |Rename(coal, p)[i].args| <= 8
    {
      assert Rename(coal, p)[i] == RenameCmd(coal, p[i]);
    }
  }

  /** The whole pass over one function, as the back end runs it. */
  method AllocateFunction(p: seq<Cmd>, size: map<Value, nat>, incoming: nat, cached: nat)
    returns (coal: Coalesced, a: Allocated, ghost liveIn: Live, ghost liveOut: Live, ghost sc: Scanning)
    requires CallsFit(p) && cached <= 3
    ensures forall t, c :: Accepted(p, t, c) <==> t in coal && coal[t] == c
    ensures CallsFit(Rename(coal, p)) && Analysed(Rename(coal, p), liveIn, liveOut)
    ensures GoodHomes(Rename(coal, p), liveIn, liveOut, a.home, Destroyed())
    ensures FrameOk(a) && SlotsApart(a, size) && ArrivalsFree(a.home, incoming)
    ensures ScanGives(Rename(coal, p), liveIn, liveOut, incoming, cached, a.home, sc)
    ensures CachesKept(a, cached) && SavedExactly(a, cached) && FrameExact(Rename(coal, p), a, size)
    ensures NoChains(coal) ==> Safe(p, coal)
  {
    coal := FindCopies(p);
    forall t, c | t in coal && coal[t] == c
      ensures Accepted(p, t, c)
    {
      assert Accepted(p, t, coal[t]);
    }
    RenameCallsFit(p, coal);
    a, liveIn, liveOut, sc := Allocate(Rename(coal, p), size, incoming, cached);
    if NoChains(coal) {
      NoChainsIsSafe(p, coal);
    }
  }
}
