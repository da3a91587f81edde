/** What one timer routine does to registers and memory. */
module SwitchRoutine {
  import opened Switcher

  // ---- short straight lines ----

  lemma ExecOne(m: Machine, a: Ins)
    ensures Exec(m, [a]) == Do(m, a)
  {
    assert ExecTo(m, [a], 0) == m;
  }

  lemma ExecCons(m: Machine, a: Ins, rest: seq<Ins>)
    ensures Exec(m, [a] + rest) == Exec(Do(m, a), rest)
  {
    ExecAppend(m, [a], rest);
    ExecOne(m, a);
  }

  lemma ExecTwo(m: Machine, a: Ins, b: Ins)
    ensures Exec(m, [a, b]) == Do(Do(m, a), b)
  {
    ExecCons(m, a, [b]);
    ExecOne(Do(m, a), b);
    assert [a] + [b] == [a, b];
  }

  lemma ExecFour(m: Machine, a: Ins, b: Ins, c: Ins, d: Ins)
    ensures Exec(m, [a, b, c, d]) == Do(Do(Do(Do(m, a), b), c), d)
  {
    ExecAppend(m, [a, b], [c, d]);
    ExecTwo(m, a, b);
    ExecTwo(Do(Do(m, a), b), c, d);
    assert [a, b] + [c, d] == [a, b, c, d];
  }

  // ---- saving a group ----

  function DumpGp(mem: map<int, int>, t: int, gp: map<Reg, int>, regs: seq<Reg>, n: nat): map<int, int>
    requires n <= |regs|
  {
    if n == 0 then mem else DumpGp(mem, t, gp, regs, n - 1)[t + (GROUP_OFF + 8 * (n - 1)) := RegVal(gp, regs[n - 1])]
  }

  function DumpXmm(mem: map<int, int>, t: int, xmm: map<Xmm, int>, xs: seq<Xmm>, n: nat): map<int, int>
    requires n <= |xs|
  {
    if n == 0 then mem else DumpXmm(mem, t, xmm, xs, n - 1)[t + 16 * (n - 1) := XmmVal(xmm, xs[n - 1])]
  }

  lemma {:induction false} SaveGpRuns(m: Machine, base: Reg, regs: seq<Reg>, n: nat)
    requires n <= |regs|
    ensures Exec(m, SaveGp(base, regs, n)) == m.(mem := DumpGp(m.mem, RegVal(m.gp, base), m.gp, regs, n))
  {
    if n > 0 {
      SaveGpRuns(m, base, regs, n - 1);
      var i := Store(base, GROUP_OFF + 8 * (n - 1), regs[n - 1]);
      ExecAppend(m, SaveGp(base, regs, n - 1), [i]);
      ExecOne(Exec(m, SaveGp(base, regs, n - 1)), i);
    }
  }

  lemma {:induction false} SaveXmmRuns(m: Machine, base: Reg, off: int, xs: seq<Xmm>, n: nat)
    requires n <= |xs|
    ensures Exec(m, SaveXmm(base, off, xs, n)) == m.(mem := DumpXmm(m.mem, RegVal(m.gp, base) + off, m.xmm, xs, n))
  {
    if n > 0 {
      SaveXmmRuns(m, base, off, xs, n - 1);
      var i := StoreX(base, off + 16 * (n - 1), xs[n - 1]);
      ExecAppend(m, SaveXmm(base, off, xs, n - 1), [i]);
      ExecOne(Exec(m, SaveXmm(base, off, xs, n - 1)), i);
    }
  }

  lemma {:induction false} DumpGpAt(mem: map<int, int>, t: int, gp: map<Reg, int>, regs: seq<Reg>, n: nat, a: int)
    requires n <= |regs|
    ensures forall i :: 0 <= i < n && a == t + GROUP_OFF + 8 * i ==> MemVal(DumpGp(mem, t, gp, regs, n), a) == RegVal(gp, regs[i])
    ensures a < t + GROUP_OFF || a >= t + GROUP_OFF + 8 * n ==> MemVal(DumpGp(mem, t, gp, regs, n), a) == MemVal(mem, a)
  {
    if n > 0 {
      DumpGpAt(mem, t, gp, regs, n - 1, a);
    }
  }

  lemma {:induction false} DumpXmmAt(mem: map<int, int>, t: int, xmm: map<Xmm, int>, xs: seq<Xmm>, n: nat, a: int)
    requires n <= |xs|
    ensures forall i :: 0 <= i < n && a == t + 16 * i ==> MemVal(DumpXmm(mem, t, xmm, xs, n), a) == XmmVal(xmm, xs[i])
    ensures a < t || a >= t + 16 * n ==> MemVal(DumpXmm(mem, t, xmm, xs, n), a) == MemVal(mem, a)
  {
    if n > 0 {
      DumpXmmAt(mem, t, xmm, xs, n - 1, a);
    }
  }

  /** The TCB as the saves leave it: everything in the group, nothing elsewhere. */
  ghost predicate GroupSaved(k: Plan, s: Side, m: Machine, t: int, mem: map<int, int>) {
    && (forall i :: 0 <= i < |Gp(k, s)| ==> MemVal(mem, GpSlot(t, i)) == RegVal(m.gp, Gp(k, s)[i]))
    && (forall i :: 0 <= i < |Xmms(k, s)| ==> MemVal(mem, XmmSlot(k, s, t, i)) == XmmVal(m.xmm, Xmms(k, s)[i]))
    && (forall a :: a < t + GROUP_OFF || a >= t + TcbSize(k, s) ==> MemVal(mem, a) == MemVal(m.mem, a))
  }

  function GpSlot(t: int, i: int): int { t + GROUP_OFF + 8 * i }
  function XmmSlot(k: Plan, s: Side, t: int, i: int): int { t + XmmOff(Gp(k, s)) + 16 * i }
  function TcbSize(k: Plan, s: Side): int { XmmOff(Gp(k, s)) + 16 * |Xmms(k, s)| }

  function Dumped(k: Plan, s: Side, m: Machine, t: int, gp: map<Reg, int>): map<int, int> {
    DumpXmm(DumpGp(m.mem, t, gp, Gp(k, s), |Gp(k, s)|), t + XmmOff(Gp(k, s)), m.xmm, Xmms(k, s), |Xmms(k, s)|)
  }

  lemma DumpedSaves(k: Plan, s: Side, m: Machine, t: int, gp: map<Reg, int>)
    requires forall r :: r in Gp(k, s) ==> RegVal(gp, r) == RegVal(m.gp, r)
    ensures GroupSaved(k, s, m, t, Dumped(k, s, m, t, gp))
  {
    var regs, xs := Gp(k, s), Xmms(k, s);
    var mem1 := DumpGp(m.mem, t, gp, regs, |regs|);
    var mem := Dumped(k, s, m, t, gp);
    forall i | 0 <= i < |regs|
      ensures MemVal(mem, GpSlot(t, i)) == RegVal(m.gp, regs[i])
    {
      DumpXmmAt(mem1, t + XmmOff(regs), m.xmm, xs, |xs|, GpSlot(t, i));
      DumpGpAt(m.mem, t, gp, regs, |regs|, GpSlot(t, i));
    }
    forall i | 0 <= i < |xs|
      ensures MemVal(mem, XmmSlot(k, s, t, i)) == XmmVal(m.xmm, xs[i])
    {
      DumpXmmAt(mem1, t + XmmOff(regs), m.xmm, xs, |xs|, XmmSlot(k, s, t, i));
    }
    forall a | a < t + GROUP_OFF || a >= t + TcbSize(k, s)
      ensures MemVal(mem, a) == MemVal(m.mem, a)
    {
      DumpXmmAt(mem1, t + XmmOff(regs), m.xmm, xs, |xs|, a);
      DumpGpAt(m.mem, t, gp, regs, |regs|, a);
    }
  }

  /** Nothing was written to a port, and the segments are as before. */
  ghost predicate SameOutside(m: Machine, r: Machine) {
    r.ports == m.ports && r.inService == m.inService && r.cs == m.cs && r.ss == m.ss
  }

  lemma SavesRun(k: Plan, s: Side, s0: Reg, m: Machine)
    requires s0 !in Gp(k, s)
    ensures var r := Exec(m, Saves(k, s, s0));
            && r.gp == m.gp[s0 := MemVal(m.mem, k.cur)] && r.xmm == m.xmm && r.rsp == m.rsp && SameOutside(m, r)
            && GroupSaved(k, s, m, MemVal(m.mem, k.cur), r.mem)
  {
    var t := MemVal(m.mem, k.cur);
    SavesDump(k, s, s0, m);
    DumpedSaves(k, s, m, t, m.gp[s0 := t]);
  }

  lemma SavesDump(k: Plan, s: Side, s0: Reg, m: Machine)
    ensures var t := MemVal(m.mem, k.cur);
            Exec(m, Saves(k, s, s0)) == m.(gp := m.gp[s0 := t], mem := Dumped(k, s, m, t, m.gp[s0 := t]))
  {
    var t, regs, xs := MemVal(m.mem, k.cur), Gp(k, s), Xmms(k, s);
    var m1 := m.(gp := m.gp[s0 := t]);
    ExecThree(m, [LoadAbs(s0, k.cur)], SaveGp(s0, regs, |regs|), SaveXmm(s0, XmmOff(regs), xs, |xs|));
    ExecOne(m, LoadAbs(s0, k.cur));
    var mem1 := DumpGp(m.mem, t, m1.gp, regs, |regs|);
    SaveGpRuns(m1, s0, regs, |regs|);
    XmmDump(m1, s0, XmmOff(regs), xs, mem1);
  }

  lemma XmmDump(m: Machine, s0: Reg, off: int, xs: seq<Xmm>, mem1: map<int, int>)
    ensures Exec(m.(mem := mem1), SaveXmm(s0, off, xs, |xs|))
            == m.(mem := DumpXmm(mem1, RegVal(m.gp, s0) + off, m.xmm, xs, |xs|))
  {
    SaveXmmRuns(m.(mem := mem1), s0, off, xs, |xs|);
  }

  // ---- restoring a group ----

  function PickGp(gp: map<Reg, int>, mem: map<int, int>, t: int, regs: seq<Reg>, n: nat): map<Reg, int>
    requires n <= |regs|
  {
    if n == 0 then gp else PickGp(gp, mem, t, regs, n - 1)[regs[n - 1] := MemVal(mem, GpSlot(t, n - 1))]
  }

  lemma {:induction false} PickGpAt(gp: map<Reg, int>, mem: map<int, int>, t: int, regs: seq<Reg>, n: nat)
    requires n <= |regs| && NoRepeats(regs)
    ensures forall i :: 0 <= i < n ==> RegVal(PickGp(gp, mem, t, regs, n), regs[i]) == MemVal(mem, GpSlot(t, i))
    ensures forall x :: x !in regs ==> RegVal(PickGp(gp, mem, t, regs, n), x) == RegVal(gp, x)
  {
    if n > 0 {
      PickGpAt(gp, mem, t, regs, n - 1);
    }
  }

  lemma {:induction false} RestoreGpRuns(m: Machine, base: Reg, regs: seq<Reg>, n: nat)
    requires n <= |regs| && base !in regs && NoRepeats(regs)
    ensures Exec(m, RestoreGp(base, regs, n)) == m.(gp := PickGp(m.gp, m.mem, RegVal(m.gp, base), regs, n))
  {
    if n > 0 {
      RestoreGpRuns(m, base, regs, n - 1);
      var i, t := Load(regs[n - 1], base, GROUP_OFF + 8 * (n - 1)), RegVal(m.gp, base);
      ExecAppend(m, RestoreGp(base, regs, n - 1), [i]);
      var m1 := m.(gp := PickGp(m.gp, m.mem, t, regs, n - 1));
      ExecOne(m1, i);
      PickGpAt(m.gp, m.mem, t, regs, n - 1);
      assert Do(m1, i) == m1.(gp := m1.gp[regs[n - 1] := MemVal(m.mem, GpSlot(t, n - 1))]);
    }
  }

  lemma {:induction false} RestoreXmmRuns(m: Machine, base: Reg, off: int, xs: seq<Xmm>, n: nat)
    requires n <= |xs| && forall i, j :: 0 <= i < j < |xs| ==> xs[i] != xs[j]
    ensures var r := Exec(m, RestoreXmm(base, off, xs, n));
            && r == m.(xmm := r.xmm)
            && (forall i :: 0 <= i < n ==> XmmVal(r.xmm, xs[i]) == MemVal(m.mem, RegVal(m.gp, base) + off + 16 * i))
  {
    if n > 0 {
      RestoreXmmRuns(m, base, off, xs, n - 1);
      var i := LoadX(xs[n - 1], base, off + 16 * (n - 1));
      ExecAppend(m, RestoreXmm(base, off, xs, n - 1), [i]);
      ExecOne(Exec(m, RestoreXmm(base, off, xs, n - 1)), i);
    }
  }

  ghost predicate NoRepeats<T>(s: seq<T>) {
    forall i, j :: 0 <= i < j < |s| ==> s[i] != s[j]
  }

  /** The group's registers hold what the TCB at `t` holds. */
  ghost predicate GroupLoaded(k: Plan, o: Side, mem: map<int, int>, t: int, m: Machine) {
    && (forall i :: 0 <= i < |Gp(k, o)| ==> RegVal(m.gp, Gp(k, o)[i]) == MemVal(mem, GpSlot(t, i)))
    && (forall i :: 0 <= i < |Xmms(k, o)| ==> XmmVal(m.xmm, Xmms(k, o)[i]) == MemVal(mem, XmmSlot(k, o, t, i)))
  }

  lemma RestoresRun(k: Plan, o: Side, base: Reg, m: Machine)
    requires base !in Gp(k, o) && NoRepeats(Gp(k, o)) && NoRepeats(Xmms(k, o))
    ensures var r := Exec(m, Restores(k, o, base));
            && r.mem == m.mem && r.rsp == m.rsp && RegVal(r.gp, base) == RegVal(m.gp, base) && SameOutside(m, r)
            && GroupLoaded(k, o, m.mem, RegVal(m.gp, base), r)
  {
    var regs, xs := Gp(k, o), Xmms(k, o);
    ExecAppend(m, RestoreGp(base, regs, |regs|), RestoreXmm(base, XmmOff(regs), xs, |xs|));
    RestoreGpRuns(m, base, regs, |regs|);
    PickGpAt(m.gp, m.mem, RegVal(m.gp, base), regs, |regs|);
    RestoreXmmRuns(Exec(m, RestoreGp(base, regs, |regs|)), base, XmmOff(regs), xs, |xs|);
  }

  // ---- between saving and restoring ----

  ghost predicate OffFrame(m: Machine, a: int) { !(m.rsp <= a < m.rsp + 40) }

  lemma CopyWord(m: Machine, s0: Reg, s1: Reg, from: int, to: int)
    requires s0 != s1
    ensures var x := MemVal(m.mem, m.rsp + from);
            Exec(m, [LoadFrame(s1, from), Store(s0, to, s1)]) == m.(gp := m.gp[s1 := x], mem := m.mem[RegVal(m.gp, s0) + to := x])
  {
    ExecTwo(m, LoadFrame(s1, from), Store(s0, to, s1));
    MoveWord(m, s0, s1, from, to);
  }

  lemma MoveWord(m: Machine, s0: Reg, s1: Reg, from: int, to: int)
    requires s0 != s1
    ensures var x := MemVal(m.mem, m.rsp + from);
            Do(Do(m, LoadFrame(s1, from)), Store(s0, to, s1)) == m.(gp := m.gp[s1 := x], mem := m.mem[RegVal(m.gp, s0) + to := x])
  {
  }

  lemma CopyFrame(m: Machine, s0: Reg, s1: Reg, t: int) returns (r: Machine)
    requires RegVal(m.gp, s0) == t && s0 != s1 && OffFrame(m, t) && OffFrame(m, t + 8) && OffFrame(m, t + 16)
    ensures r == Exec(m, ([LoadFrame(s1, 0), Store(s0, RIP_OFF, s1)] + [LoadFrame(s1, 16), Store(s0, FLAGS_OFF, s1)])
                         + [LoadFrame(s1, 24), Store(s0, 0, s1)])
    ensures r.mem == m.mem[t + 8 := MemVal(m.mem, m.rsp)][t + 16 := MemVal(m.mem, m.rsp + 16)][t := MemVal(m.mem, m.rsp + 24)]
            && r.xmm == m.xmm && r.rsp == m.rsp && SameOutside(m, r)
  {
    var a, b, c := [LoadFrame(s1, 0), Store(s0, RIP_OFF, s1)], [LoadFrame(s1, 16), Store(s0, FLAGS_OFF, s1)],
                   [LoadFrame(s1, 24), Store(s0, 0, s1)];
    r := CopyThree(m, s0, s1, t);
    ExecThree(m, a, b, c);
  }

  lemma CopyThree(m: Machine, s0: Reg, s1: Reg, t: int) returns (r: Machine)
    requires RegVal(m.gp, s0) == t && s0 != s1 && OffFrame(m, t) && OffFrame(m, t + 8) && OffFrame(m, t + 16)
    ensures r == Exec(Exec(Exec(m, [LoadFrame(s1, 0), Store(s0, RIP_OFF, s1)]), [LoadFrame(s1, 16), Store(s0, FLAGS_OFF, s1)]),
                      [LoadFrame(s1, 24), Store(s0, 0, s1)])
    ensures r.mem == m.mem[t + 8 := MemVal(m.mem, m.rsp)][t + 16 := MemVal(m.mem, m.rsp + 16)][t := MemVal(m.mem, m.rsp + 24)]
            && r.xmm == m.xmm && r.rsp == m.rsp && SameOutside(m, r)
  {
    var x0, x1, x2 := MemVal(m.mem, m.rsp), MemVal(m.mem, m.rsp + 16), MemVal(m.mem, m.rsp + 24);
    FrameUntouched(m, t, x0, x1);
    var m1 := m.(gp := m.gp[s1 := x0], mem := m.mem[t + 8 := x0]);
    var m2 := m1.(gp := m1.gp[s1 := x1], mem := m1.mem[t + 16 := x1]);
    CopyWord(m, s0, s1, 0, RIP_OFF);
    CopyWord(m1, s0, s1, 16, FLAGS_OFF);
    CopyWord(m2, s0, s1, 24, 0);
    r := Exec(Exec(Exec(m, [LoadFrame(s1, 0), Store(s0, RIP_OFF, s1)]), [LoadFrame(s1, 16), Store(s0, FLAGS_OFF, s1)]),
              [LoadFrame(s1, 24), Store(s0, 0, s1)]);
  }

  lemma ExecThree(m: Machine, a: seq<Ins>, b: seq<Ins>, c: seq<Ins>)
    ensures Exec(m, (a + b) + c) == Exec(Exec(Exec(m, a), b), c)
  {
    ExecAppend(m, a + b, c);
    ExecAppend(m, a, b);
  }

  lemma FrameUntouched(m: Machine, t: int, x0: int, x1: int)
    requires OffFrame(m, t) && OffFrame(m, t + 8) && OffFrame(m, t + 16)
    ensures MemVal(m.mem[t + 8 := x0], m.rsp + 16) == MemVal(m.mem, m.rsp + 16)
    ensures MemVal(m.mem[t + 8 := x0][t + 16 := x1], m.rsp + 24) == MemVal(m.mem, m.rsp + 24)
  {
  }

  lemma AckAndFlip(k: Plan, m: Machine, s1: Reg, isr: int)
    ensures var r := Exec(m, [MovLow(Rax, 0x100, 0x20), MovLow(Rdx, 0x10000, 0x20), Out, Lea(s1, isr)] + [StoreAbs(k.vector, s1)]);
            && r.mem == m.mem[k.vector := isr] && r.xmm == m.xmm && r.rsp == m.rsp && Acknowledges(m, r)
  {
    var a := [MovLow(Rax, 0x100, 0x20), MovLow(Rdx, 0x10000, 0x20), Out, Lea(s1, isr)];
    ExecAppend(m, a, [StoreAbs(k.vector, s1)]);
    ExecFour(m, a[0], a[1], a[2], a[3]);
    ExecOne(Exec(m, a), StoreAbs(k.vector, s1));
    LowByte(RegVal(m.gp, Rax));
    LowWord(RegVal(m.gp, Rdx));
  }

  /** Exactly one byte was written: the end of interrupt, to the interrupt controller. */
  ghost predicate Acknowledges(m: Machine, r: Machine) {
    r.ports == m.ports + [(0x20, 0x20)] && !r.inService && r.cs == m.cs && r.ss == m.ss
  }

  lemma LowByte(x: int)
    ensures (x - x % 0x100 + 0x20) % 0x100 == 0x20
  {
  }

  lemma LowWord(x: int)
    ensures (x - x % 0x10000 + 0x20) % 0x10000 == 0x20
  {
  }

  lemma Swap(k: Plan, m: Machine, s1: Reg, base: Reg)
    requires s1 != base
    ensures var r := Exec(m, [LoadAbs(s1, k.cur), LoadAbs(base, k.next), StoreAbs(k.next, s1), StoreAbs(k.cur, base)]);
            && r.mem == m.mem[k.next := MemVal(m.mem, k.cur)][k.cur := MemVal(m.mem, k.next)]
            && r.xmm == m.xmm && r.rsp == m.rsp && RegVal(r.gp, base) == MemVal(m.mem, k.next) && SameOutside(m, r)
  {
    ExecFour(m, LoadAbs(s1, k.cur), LoadAbs(base, k.next), StoreAbs(k.next, s1), StoreAbs(k.cur, base));
  }

  function MiddleMem(k: Plan, s: Side, mem: map<int, int>, t: int, rsp: int): map<int, int> {
    var mem1 := mem[t + 8 := MemVal(mem, rsp)][t + 16 := MemVal(mem, rsp + 16)][t := MemVal(mem, rsp + 24)];
    var mem2 := mem1[k.vector := Isr(k, Other(s))];
    mem2[k.next := MemVal(mem2, k.cur)][k.cur := MemVal(mem2, k.next)]
  }

  lemma MiddleRuns(k: Plan, s: Side, s0: Reg, s1: Reg, base: Reg, m: Machine, t: int)
    requires RegVal(m.gp, s0) == t && s0 != s1 && s1 != base
    requires OffFrame(m, t) && OffFrame(m, t + 8) && OffFrame(m, t + 16)
    ensures var r := Exec(m, Middle(k, s, s0, s1, base));
            && r.mem == MiddleMem(k, s, m.mem, t, m.rsp) && r.xmm == m.xmm && r.rsp == m.rsp && Acknowledges(m, r)
            && RegVal(r.gp, base) == MemVal(m.mem[t + 8 := MemVal(m.mem, m.rsp)][t + 16 := MemVal(m.mem, m.rsp + 16)][t := MemVal(m.mem, m.rsp + 24)]
                                      [k.vector := Isr(k, Other(s))], k.next)
  {
    var a := ([LoadFrame(s1, 0), Store(s0, RIP_OFF, s1)] + [LoadFrame(s1, 16), Store(s0, FLAGS_OFF, s1)])
             + [LoadFrame(s1, 24), Store(s0, 0, s1)];
    var b := [MovLow(Rax, 0x100, 0x20), MovLow(Rdx, 0x10000, 0x20), Out, Lea(s1, Isr(k, Other(s)))] + [StoreAbs(k.vector, s1)];
    var c := [LoadAbs(s1, k.cur), LoadAbs(base, k.next), StoreAbs(k.next, s1), StoreAbs(k.cur, base)];
    assert Middle(k, s, s0, s1, base) == (a + b) + c;
    ExecAppend(m, a + b, c);
    ExecAppend(m, a, b);
    var m1 := CopyFrame(m, s0, s1, t);
    AckAndFlip(k, m1, s1, Isr(k, Other(s)));
    Swap(k, Exec(m1, b), s1, base);
  }

  // ---- leaving ----

  function FrameMem(mem: map<int, int>, f: int, rip: int, rflags: int, rsp: int): map<int, int> {
    mem[f := rip][f + 8 := 0x08][f + 16 := rflags][f + 24 := rsp][f + 32 := 0x10]
  }

  lemma LeaveRuns(base: Reg, f0: Reg, f1: Reg, f2: Reg, m: Machine, b: int, rsp: int) returns (r: Machine)
    requires base != f0 && base != f1 && base != f2 && f0 != f1 && f0 != f2 && f1 != f2
    requires RegVal(m.gp, base) == b && MemVal(m.mem, b) == rsp && !(rsp - 40 <= b < rsp)
    ensures r == Exec(m, Leave(base, f0, f1, f2))
    ensures r.rip == MemVal(m.mem, b + 8) && r.rflags == MemVal(m.mem, b + 16) && r.rsp == rsp && r.xmm == m.xmm
            && r.mem == FrameMem(m.mem, rsp - 40, MemVal(m.mem, b + 8), MemVal(m.mem, b + 16), rsp)
            && (forall x :: x != f0 && x != f1 && x != f2 ==> RegVal(r.gp, x) == RegVal(m.gp, x))
            && r.cs == 0x08 && r.ss == 0x10 && r.ports == m.ports && r.inService == m.inService
  {
    var a := [Load(f0, base, 0), Load(f1, base, RIP_OFF), Load(f2, base, FLAGS_OFF), Sub(f0, 40)];
    var c := [Store(f0, 0, f1), StoreConst(f0, 8, 0x08), Store(f0, 16, f2), Load(f1, base, 0)];
    var d := [Store(f0, 24, f1), StoreConst(f0, 32, 0x10), MovRsp(f0), Iretq];
    assert Leave(base, f0, f1, f2) == (a + c) + d;
    r := LeaveParts(base, f0, f1, f2, m, b, rsp);
    ExecThree(m, a, c, d);
  }

  lemma LeaveParts(base: Reg, f0: Reg, f1: Reg, f2: Reg, m: Machine, b: int, rsp: int) returns (r: Machine)
    requires base != f0 && base != f1 && base != f2 && f0 != f1 && f0 != f2 && f1 != f2
    requires RegVal(m.gp, base) == b && MemVal(m.mem, b) == rsp && !(rsp - 40 <= b < rsp)
    ensures r == Exec(Exec(Exec(m, [Load(f0, base, 0), Load(f1, base, RIP_OFF), Load(f2, base, FLAGS_OFF), Sub(f0, 40)]),
                           [Store(f0, 0, f1), StoreConst(f0, 8, 0x08), Store(f0, 16, f2), Load(f1, base, 0)]),
                      [Store(f0, 24, f1), StoreConst(f0, 32, 0x10), MovRsp(f0), Iretq])
    ensures r.rip == MemVal(m.mem, b + 8) && r.rflags == MemVal(m.mem, b + 16) && r.rsp == rsp && r.xmm == m.xmm
            && r.mem == FrameMem(m.mem, rsp - 40, MemVal(m.mem, b + 8), MemVal(m.mem, b + 16), rsp)
            && (forall x :: x != f0 && x != f1 && x != f2 ==> RegVal(r.gp, x) == RegVal(m.gp, x))
            && r.cs == 0x08 && r.ss == 0x10 && r.ports == m.ports && r.inService == m.inService
  {
    LeaveLoads(base, f0, f1, f2, m, b, rsp);
    var rip, fl := MemVal(m.mem, b + 8), MemVal(m.mem, b + 16);
    var m1 := m.(gp := m.gp[f0 := rsp][f1 := rip][f2 := fl][f0 := rsp - 40]);
    LoadedRegs(base, f0, f1, f2, m.gp, b, rsp, rip, fl);
    LeaveFrame(base, f0, f1, f2, m1, b, rsp);
    var m2 := m1.(gp := m1.gp[f1 := rsp], mem := m.mem[rsp - 40 := rip][rsp - 40 + 8 := 0x08][rsp - 40 + 16 := fl]);
    FrameRead(m.mem, rsp - 40, rip, fl);
    assert RegVal(m2.gp, f0) == rsp - 40 && RegVal(m2.gp, f1) == rsp;
    LeaveReturn(f0, f1, m2, rsp - 40, rsp);
    r := Exec(Exec(Exec(m, [Load(f0, base, 0), Load(f1, base, RIP_OFF), Load(f2, base, FLAGS_OFF), Sub(f0, 40)]),
                   [Store(f0, 0, f1), StoreConst(f0, 8, 0x08), Store(f0, 16, f2), Load(f1, base, 0)]),
              [Store(f0, 24, f1), StoreConst(f0, 32, 0x10), MovRsp(f0), Iretq]);
    LeftBehind(m, m1, m2, r, f0, f1, f2, rsp, rip, fl);
  }

  lemma LoadedRegs(base: Reg, f0: Reg, f1: Reg, f2: Reg, gp: map<Reg, int>, b: int, rsp: int, rip: int, fl: int)
    requires base != f0 && base != f1 && base != f2 && f0 != f1 && f0 != f2 && f1 != f2 && RegVal(gp, base) == b
    ensures var g := gp[f0 := rsp][f1 := rip][f2 := fl][f0 := rsp - 40];
            RegVal(g, base) == b && RegVal(g, f0) == rsp - 40 && RegVal(g, f1) == rip && RegVal(g, f2) == fl
  {
  }

  lemma LeftBehind(m: Machine, m1: Machine, m2: Machine, r: Machine, f0: Reg, f1: Reg, f2: Reg, rsp: int, rip: int, fl: int)
    requires m1 == m.(gp := m.gp[f0 := rsp][f1 := rip][f2 := fl][f0 := rsp - 40])
    requires m2 == m1.(gp := m1.gp[f1 := rsp], mem := m.mem[rsp - 40 := rip][rsp - 40 + 8 := 0x08][rsp - 40 + 16 := fl])
    requires r == m2.(mem := m2.mem[rsp - 40 + 24 := rsp][rsp - 40 + 32 := 0x10], rip := rip, cs := 0x08, rflags := fl, ss := 0x10, rsp := rsp)
    ensures r.rip == rip && r.rflags == fl && r.rsp == rsp && r.xmm == m.xmm && r.mem == FrameMem(m.mem, rsp - 40, rip, fl, rsp)
            && (forall x :: x != f0 && x != f1 && x != f2 ==> RegVal(r.gp, x) == RegVal(m.gp, x))
            && r.cs == 0x08 && r.ss == 0x10 && r.ports == m.ports && r.inService == m.inService
  {
  }

  lemma FrameRead(mem: map<int, int>, f: int, rip: int, fl: int)
    ensures var mem1 := mem[f := rip][f + 8 := 0x08][f + 16 := fl];
            MemVal(mem1, f) == rip && MemVal(mem1, f + 8) == 0x08 && MemVal(mem1, f + 16) == fl
  {
  }

  lemma LeaveReturn(f0: Reg, f1: Reg, m: Machine, f: int, rsp: int)
    requires RegVal(m.gp, f0) == f && RegVal(m.gp, f1) == rsp
    ensures Exec(m, [Store(f0, 24, f1), StoreConst(f0, 32, 0x10), MovRsp(f0), Iretq])
            == m.(mem := m.mem[f + 24 := rsp][f + 32 := 0x10], rip := MemVal(m.mem, f), cs := MemVal(m.mem, f + 8), rflags := MemVal(m.mem, f + 16), ss := 0x10, rsp := rsp)
  {
    ExecFour(m, Store(f0, 24, f1), StoreConst(f0, 32, 0x10), MovRsp(f0), Iretq);
    PopFrame(f0, f1, m, f, rsp);
  }

  lemma PopFrame(f0: Reg, f1: Reg, m: Machine, f: int, rsp: int)
    requires RegVal(m.gp, f0) == f && RegVal(m.gp, f1) == rsp
    ensures Do(Do(Do(Do(m, Store(f0, 24, f1)), StoreConst(f0, 32, 0x10)), MovRsp(f0)), Iretq)
            == m.(mem := m.mem[f + 24 := rsp][f + 32 := 0x10], rip := MemVal(m.mem, f), cs := MemVal(m.mem, f + 8), rflags := MemVal(m.mem, f + 16), ss := 0x10, rsp := rsp)
  {
    var m1 := m.(mem := m.mem[f + 24 := rsp]);
    var m2 := m1.(mem := m1.mem[f + 32 := 0x10]);
    assert Do(m, Store(f0, 24, f1)) == m1 && Do(m1, StoreConst(f0, 32, 0x10)) == m2;
    PopThree(m2, m, f0, f, rsp);
  }

  lemma PopThree(m2: Machine, m: Machine, f0: Reg, f: int, rsp: int)
    requires RegVal(m2.gp, f0) == f && m2 == m.(mem := m.mem[f + 24 := rsp][f + 32 := 0x10])
    ensures Do(Do(m2, MovRsp(f0)), Iretq)
            == m2.(rip := MemVal(m.mem, f), cs := MemVal(m.mem, f + 8), rflags := MemVal(m.mem, f + 16), ss := 0x10, rsp := rsp)
  {
    assert MemVal(m2.mem, f + 8) == MemVal(m.mem, f + 8) && MemVal(m2.mem, f + 32) == 0x10;
    assert MemVal(m2.mem, f) == MemVal(m.mem, f) && MemVal(m2.mem, f + 16) == MemVal(m.mem, f + 16) && MemVal(m2.mem, f + 24) == rsp;
  }

  lemma LeaveLoads(base: Reg, f0: Reg, f1: Reg, f2: Reg, m: Machine, b: int, rsp: int)
    requires base != f0 && base != f1 && base != f2 && f0 != f1 && f0 != f2 && f1 != f2
    requires RegVal(m.gp, base) == b && MemVal(m.mem, b) == rsp
    ensures Exec(m, [Load(f0, base, 0), Load(f1, base, RIP_OFF), Load(f2, base, FLAGS_OFF), Sub(f0, 40)])
            == m.(gp := m.gp[f0 := rsp][f1 := MemVal(m.mem, b + 8)][f2 := MemVal(m.mem, b + 16)][f0 := rsp - 40])
  {
    ExecFour(m, Load(f0, base, 0), Load(f1, base, RIP_OFF), Load(f2, base, FLAGS_OFF), Sub(f0, 40));
    LoadFour(base, f0, f1, f2, m, b, rsp);
  }

  lemma LoadFour(base: Reg, f0: Reg, f1: Reg, f2: Reg, m: Machine, b: int, rsp: int)
    requires base != f0 && base != f1 && base != f2 && f0 != f1 && f0 != f2 && f1 != f2
    requires RegVal(m.gp, base) == b && MemVal(m.mem, b) == rsp
    ensures Do(Do(Do(Do(m, Load(f0, base, 0)), Load(f1, base, RIP_OFF)), Load(f2, base, FLAGS_OFF)), Sub(f0, 40))
            == m.(gp := m.gp[f0 := rsp][f1 := MemVal(m.mem, b + 8)][f2 := MemVal(m.mem, b + 16)][f0 := rsp - 40])
  {
  }

  lemma LeaveFrame(base: Reg, f0: Reg, f1: Reg, f2: Reg, m: Machine, b: int, rsp: int)
    requires base != f0 && base != f1 && base != f2 && f0 != f1 && f0 != f2 && f1 != f2
    requires RegVal(m.gp, base) == b && RegVal(m.gp, f0) == rsp - 40 && MemVal(m.mem, b) == rsp && !(rsp - 40 <= b < rsp)
    ensures var r := Exec(m, [Store(f0, 0, f1), StoreConst(f0, 8, 0x08), Store(f0, 16, f2), Load(f1, base, 0)]);
            r == m.(gp := m.gp[f1 := rsp],
                    mem := m.mem[rsp - 40 := RegVal(m.gp, f1)][rsp - 40 + 8 := 0x08][rsp - 40 + 16 := RegVal(m.gp, f2)])
  {
    ExecFour(m, Store(f0, 0, f1), StoreConst(f0, 8, 0x08), Store(f0, 16, f2), Load(f1, base, 0));
  }
}
