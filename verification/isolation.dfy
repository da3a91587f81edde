/** Two threads under the preemptive switcher, against two threads that never meet. */
module ThreadIsolation {
  import opened Switcher
  import opened SwitchRoutine

  // ---- what the generator and the loader provide ----

  ghost predicate InTcb(k: Plan, s: Side, a: int) { Tcb(k, s) <= a < Tcb(k, s) + TcbSize(k, s) }

  ghost predicate InGlobals(k: Plan, a: int) {
    k.cur <= a < k.cur + 8 || k.next <= a < k.next + 8 || k.vector <= a < k.vector + 8
  }

  /** Memory that belongs to the switcher. */
  ghost predicate Guarded(k: Plan, a: int) { InTcb(k, Left, a) || InTcb(k, Right, a) || InGlobals(k, a) }

  ghost predicate Apart(a: int, m: int, b: int, n: int) { a + m <= b || b + n <= a }

  /** Disjoint groups of at least four registers, disjoint TCBs and globals. */
  ghost predicate WellFormed(k: Plan) {
    && (forall s :: |Gp(k, s)| >= 4 && NoRepeats(Gp(k, s)) && NoRepeats(Xmms(k, s)))
    && (forall r :: r in Gp(k, Left) ==> r !in Gp(k, Right))
    && (forall x :: x in Xmms(k, Left) ==> x !in Xmms(k, Right))
    && Isr(k, Left) != Isr(k, Right)
    && Apart(Tcb(k, Left), TcbSize(k, Left), Tcb(k, Right), TcbSize(k, Right))
    && (forall s :: GlobalsClear(k, s))
    && Apart(k.cur, 8, k.next, 8) && Apart(k.cur, 8, k.vector, 8) && Apart(k.next, 8, k.vector, 8)
  }

  ghost predicate GlobalsClear(k: Plan, s: Side) {
    && Apart(Tcb(k, s), TcbSize(k, s), k.cur, 8) && Apart(Tcb(k, s), TcbSize(k, s), k.next, 8)
    && Apart(Tcb(k, s), TcbSize(k, s), k.vector, 8)
  }

  /** The interrupt frame fits below the stack pointer, aligned or not. */
  ghost predicate SafeStack(k: Plan, rsp: int) {
    forall a :: rsp - 55 <= a < rsp ==> !Guarded(k, a)
  }

  // ---- a thread's context ----

  datatype Context = Context(gp: seq<int>, xmm: seq<int>, rsp: int, rip: int, rflags: int)

  /** The context of side `s` while it is in the processor. */
  function InCpu(k: Plan, s: Side, m: Machine): Context {
    Context(seq(|Gp(k, s)|, i requires 0 <= i < |Gp(k, s)| => RegVal(m.gp, Gp(k, s)[i])),
            seq(|Xmms(k, s)|, i requires 0 <= i < |Xmms(k, s)| => XmmVal(m.xmm, Xmms(k, s)[i])),
            m.rsp, m.rip, m.rflags)
  }

  /** The context of side `s` while it is in its TCB. */
  function InMemory(k: Plan, s: Side, mem: map<int, int>): Context {
    var t := Tcb(k, s);
    Context(seq(|Gp(k, s)|, i requires 0 <= i < |Gp(k, s)| => MemVal(mem, GpSlot(t, i))),
            seq(|Xmms(k, s)|, i requires 0 <= i < |Xmms(k, s)| => MemVal(mem, XmmSlot(k, s, t, i))),
            MemVal(mem, t), MemVal(mem, t + RIP_OFF), MemVal(mem, t + FLAGS_OFF))
  }

  /** Side `s` is running: the globals say so, the vector is its own routine, both
      stacks have room for a frame, the segments are the kernel's, and the controller
      has been told of the end of the last interrupt. */
  ghost predicate Running(k: Plan, s: Side, m: Machine) {
    && m.cs == 0x08 && m.ss == 0x10 && !m.inService
    && MemVal(m.mem, k.cur) == Tcb(k, s) && MemVal(m.mem, k.next) == Tcb(k, Other(s)) && MemVal(m.mem, k.vector) == Isr(k, s)
    && SafeStack(k, m.rsp) && SafeStack(k, MemVal(m.mem, Tcb(k, Other(s))))
  }

  // ---- one tick ----

  ghost predicate SameGuarded(k: Plan, mem: map<int, int>, mem1: map<int, int>) {
    forall a {:trigger MemVal(mem1, a)} :: Guarded(k, a) ==> MemVal(mem1, a) == MemVal(mem, a)
  }

  lemma InterruptSpares(k: Plan, m: Machine)
    requires SafeStack(k, m.rsp)
    ensures var i := Interrupt(m);
            && SameGuarded(k, m.mem, i.mem) && i.gp == m.gp && i.xmm == m.xmm && i.ports == m.ports
            && MemVal(i.mem, i.rsp) == m.rip && MemVal(i.mem, i.rsp + 16) == m.rflags && MemVal(i.mem, i.rsp + 24) == m.rsp
            && (forall a :: i.rsp <= a < i.rsp + 40 ==> !Guarded(k, a))
  {
    var top := m.rsp - m.rsp % 16;
    assert m.rsp - 55 <= top - 40;
  }

  lemma TcbGuarded(k: Plan, s: Side)
    ensures Guarded(k, Tcb(k, s)) && Guarded(k, Tcb(k, s) + 8) && Guarded(k, Tcb(k, s) + 16)
    ensures Guarded(k, k.cur) && Guarded(k, k.next) && Guarded(k, k.vector)
    ensures forall i :: 0 <= i < |Gp(k, s)| ==> InTcb(k, s, GpSlot(Tcb(k, s), i))
    ensures forall i :: 0 <= i < |Xmms(k, s)| ==> InTcb(k, s, XmmSlot(k, s, Tcb(k, s), i))
  {
    assert s == Left || s == Right;
  }

  /** The outgoing half of the routine, from the interrupt to the swap. */
  lemma Outgoing(k: Plan, s: Side, i: Machine) returns (r: Machine)
    requires WellFormed(k) && MemVal(i.mem, k.cur) == Tcb(k, s) && MemVal(i.mem, k.next) == Tcb(k, Other(s))
    requires forall a :: i.rsp <= a < i.rsp + 40 ==> !Guarded(k, a)
    ensures var mine, theirs := Gp(k, s), Gp(k, Other(s));
            r == Exec(i, Saves(k, s, theirs[0]) + Middle(k, s, theirs[0], theirs[1], mine[0])) && RegVal(r.gp, mine[0]) == Tcb(k, Other(s))
    ensures MemVal(r.mem, k.cur) == Tcb(k, Other(s)) && MemVal(r.mem, k.next) == Tcb(k, s) && MemVal(r.mem, k.vector) == Isr(k, Other(s))
    ensures InMemory(k, s, r.mem) == InCpu(k, s, i).(rip := MemVal(i.mem, i.rsp), rflags := MemVal(i.mem, i.rsp + 16), rsp := MemVal(i.mem, i.rsp + 24))
    ensures forall a :: InTcb(k, Other(s), a) ==> MemVal(r.mem, a) == MemVal(i.mem, a)
    ensures Acknowledges(i, r)
  {
    var mine, theirs, t := Gp(k, s), Gp(k, Other(s)), Tcb(k, s);
    ExecAppend(i, Saves(k, s, theirs[0]), Middle(k, s, theirs[0], theirs[1], mine[0]));
    GroupsApart(k, s);
    SavesRun(k, s, theirs[0], i);
    var m1 := Exec(i, Saves(k, s, theirs[0]));
    TcbGuarded(k, s);
    MiddleRuns(k, s, theirs[0], theirs[1], mine[0], m1, t);
    r := Exec(m1, Middle(k, s, theirs[0], theirs[1], mine[0]));
    NextSurvives(k, s, i, m1.mem);
    OutgoingMemory(k, s, i, m1.mem, r.mem);
  }

  /** When the swap reads the pointer to the incoming TCB it is still what it was. */
  lemma NextSurvives(k: Plan, s: Side, i: Machine, mem1: map<int, int>)
    requires WellFormed(k) && GroupSaved(k, s, i, Tcb(k, s), mem1)
    ensures var t := Tcb(k, s);
            MemVal(mem1[t + 8 := MemVal(mem1, i.rsp)][t + 16 := MemVal(mem1, i.rsp + 16)][t := MemVal(mem1, i.rsp + 24)]
                   [k.vector := Isr(k, Other(s))], k.next) == MemVal(i.mem, k.next)
  {
    assert GlobalsClear(k, s);
  }

  lemma GroupsApart(k: Plan, s: Side)
    requires WellFormed(k)
    ensures forall r :: r in Gp(k, s) ==> r !in Gp(k, Other(s))
    ensures var mine, theirs := Gp(k, s), Gp(k, Other(s));
            && theirs[0] !in mine && theirs[1] !in mine && theirs[0] != theirs[1]
            && mine[0] !in theirs && mine[1] !in theirs && mine[2] !in theirs && mine[3] !in theirs
            && mine[0] != mine[1] && mine[0] != mine[2] && mine[0] != mine[3]
            && mine[1] != mine[2] && mine[1] != mine[3] && mine[2] != mine[3]
            && theirs[1] != mine[0]
  {
    assert s == Left || s == Right;
    var mine, theirs := Gp(k, s), Gp(k, Other(s));
    assert mine[0] in mine && mine[1] in mine && mine[2] in mine && mine[3] in mine && theirs[0] in theirs && theirs[1] in theirs;
  }

  /** Memory after the swap, seen through the layout. */
  lemma OutgoingMemory(k: Plan, s: Side, i: Machine, mem1: map<int, int>, mem2: map<int, int>)
    requires WellFormed(k) && MemVal(i.mem, k.cur) == Tcb(k, s) && MemVal(i.mem, k.next) == Tcb(k, Other(s))
    requires forall a :: i.rsp <= a < i.rsp + 40 ==> !Guarded(k, a)
    requires GroupSaved(k, s, i, Tcb(k, s), mem1) && mem2 == MiddleMem(k, s, mem1, Tcb(k, s), i.rsp)
    ensures MemVal(mem2, k.cur) == Tcb(k, Other(s)) && MemVal(mem2, k.next) == Tcb(k, s) && MemVal(mem2, k.vector) == Isr(k, Other(s))
    ensures InMemory(k, s, mem2) == InCpu(k, s, i).(rip := MemVal(i.mem, i.rsp), rflags := MemVal(i.mem, i.rsp + 16), rsp := MemVal(i.mem, i.rsp + 24))
    ensures forall a :: InTcb(k, Other(s), a) ==> MemVal(mem2, a) == MemVal(i.mem, a)
  {
    var t := Tcb(k, s);
    TcbGuarded(k, s);
    assert GlobalsClear(k, s) && GlobalsClear(k, Other(s));
    FrameKept(k, s, i, mem1);
    GroupKept(k, s, i, mem1, mem2);
    forall a | InTcb(k, Other(s), a)
      ensures MemVal(mem2, a) == MemVal(i.mem, a)
    {
      OtherTcb(k, s, a);
    }
    HeaderWritten(k, s, mem1, i.rsp);
  }

  lemma GroupKept(k: Plan, s: Side, i: Machine, mem1: map<int, int>, mem2: map<int, int>)
    requires GlobalsClear(k, s) && GroupSaved(k, s, i, Tcb(k, s), mem1) && mem2 == MiddleMem(k, s, mem1, Tcb(k, s), i.rsp)
    ensures InMemory(k, s, mem2).gp == InCpu(k, s, i).gp && InMemory(k, s, mem2).xmm == InCpu(k, s, i).xmm
  {
    var t := Tcb(k, s);
    TcbGuarded(k, s);
    forall n | 0 <= n < |Gp(k, s)|
      ensures MemVal(mem2, GpSlot(t, n)) == RegVal(i.gp, Gp(k, s)[n])
    {
      SlotKept(k, s, mem1, i.rsp, GpSlot(t, n));
    }
    forall n | 0 <= n < |Xmms(k, s)|
      ensures MemVal(mem2, XmmSlot(k, s, t, n)) == XmmVal(i.xmm, Xmms(k, s)[n])
    {
      SlotKept(k, s, mem1, i.rsp, XmmSlot(k, s, t, n));
    }
  }

  /** Outside the header and the globals the middle of the routine writes nothing. */
  lemma SlotKept(k: Plan, s: Side, mem: map<int, int>, rsp: int, a: int)
    requires GlobalsClear(k, s) && InTcb(k, s, a) && a >= Tcb(k, s) + GROUP_OFF
    ensures MemVal(MiddleMem(k, s, mem, Tcb(k, s), rsp), a) == MemVal(mem, a)
  {
  }

  lemma OtherTcb(k: Plan, s: Side, a: int)
    requires WellFormed(k) && InTcb(k, Other(s), a)
    ensures !InTcb(k, s, a) && a != k.cur && a != k.next && a != k.vector
    ensures a != Tcb(k, s) && a != Tcb(k, s) + 8 && a != Tcb(k, s) + 16
    ensures a < Tcb(k, s) + GROUP_OFF || a >= Tcb(k, s) + TcbSize(k, s)
  {
    assert s == Left || s == Right;
    assert GlobalsClear(k, Other(s));
  }

  lemma FrameKept(k: Plan, s: Side, i: Machine, mem1: map<int, int>)
    requires GroupSaved(k, s, i, Tcb(k, s), mem1) && forall a :: i.rsp <= a < i.rsp + 40 ==> !Guarded(k, a)
    ensures MemVal(mem1, i.rsp) == MemVal(i.mem, i.rsp) && MemVal(mem1, i.rsp + 16) == MemVal(i.mem, i.rsp + 16)
    ensures MemVal(mem1, i.rsp + 24) == MemVal(i.mem, i.rsp + 24)
  {
    assert s == Left || s == Right;
    forall a | i.rsp <= a < i.rsp + 40
      ensures MemVal(mem1, a) == MemVal(i.mem, a)
    {
      assert !Guarded(k, a) && !InTcb(k, s, a);
    }
  }

  lemma HeaderWritten(k: Plan, s: Side, mem: map<int, int>, rsp: int)
    requires GlobalsClear(k, s) && Apart(k.cur, 8, k.next, 8) && Apart(k.cur, 8, k.vector, 8) && Apart(k.next, 8, k.vector, 8)
    ensures var mem2, t := MiddleMem(k, s, mem, Tcb(k, s), rsp), Tcb(k, s);
            && MemVal(mem2, t) == MemVal(mem, rsp + 24) && MemVal(mem2, t + 8) == MemVal(mem, rsp) && MemVal(mem2, t + 16) == MemVal(mem, rsp + 16)
            && MemVal(mem2, k.cur) == MemVal(mem, k.next) && MemVal(mem2, k.next) == MemVal(mem, k.cur)
            && MemVal(mem2, k.vector) == Isr(k, Other(s))
  {
  }

  /** The incoming half: registers from the TCB, then back through a frame. */
  lemma Incoming(k: Plan, s: Side, m: Machine) returns (r: Machine)
    requires WellFormed(k) && RegVal(m.gp, Gp(k, s)[0]) == Tcb(k, Other(s)) && SafeStack(k, MemVal(m.mem, Tcb(k, Other(s))))
    ensures var mine := Gp(k, s);
            r == Exec(m, Restores(k, Other(s), mine[0]) + Leave(mine[0], mine[1], mine[2], mine[3]))
    ensures InCpu(k, Other(s), r) == InMemory(k, Other(s), m.mem) && SameGuarded(k, m.mem, r.mem)
    ensures r.cs == 0x08 && r.ss == 0x10 && r.ports == m.ports && r.inService == m.inService
  {
    var mine, o, b := Gp(k, s), Other(s), Tcb(k, Other(s));
    GroupsApart(k, s);
    ExecAppend(m, Restores(k, o, mine[0]), Leave(mine[0], mine[1], mine[2], mine[3]));
    RestoresRun(k, o, mine[0], m);
    var m1 := Exec(m, Restores(k, o, mine[0]));
    var rsp := MemVal(m.mem, b);
    TcbGuarded(k, o);
    r := LeaveRuns(mine[0], mine[1], mine[2], mine[3], m1, b, rsp);
    FrameSpares(k, m.mem, rsp, MemVal(m.mem, b + 8), MemVal(m.mem, b + 16));
    LoadedContext(k, o, mine[1], mine[2], mine[3], m, m1, r);
  }

  lemma LoadedContext(k: Plan, o: Side, f0: Reg, f1: Reg, f2: Reg, m: Machine, m1: Machine, r: Machine)
    requires GroupLoaded(k, o, m.mem, Tcb(k, o), m1) && f0 !in Gp(k, o) && f1 !in Gp(k, o) && f2 !in Gp(k, o)
    requires forall x :: x != f0 && x != f1 && x != f2 ==> RegVal(r.gp, x) == RegVal(m1.gp, x)
    requires r.xmm == m1.xmm && r.rsp == MemVal(m.mem, Tcb(k, o)) && r.rip == MemVal(m.mem, Tcb(k, o) + 8) && r.rflags == MemVal(m.mem, Tcb(k, o) + 16)
    ensures InCpu(k, o, r) == InMemory(k, o, m.mem)
  {
  }

  lemma FrameSpares(k: Plan, mem: map<int, int>, rsp: int, rip: int, rflags: int)
    requires SafeStack(k, rsp)
    ensures SameGuarded(k, mem, FrameMem(mem, rsp - 40, rip, rflags, rsp))
  {
  }

  /** The state between the halves of a tick, and after it, seen through the layout. */
  ghost predicate Halfway(k: Plan, s: Side, m: Machine, m1: Machine) {
    && MemVal(m1.mem, k.cur) == Tcb(k, Other(s)) && MemVal(m1.mem, k.next) == Tcb(k, s) && MemVal(m1.mem, k.vector) == Isr(k, Other(s))
    && InMemory(k, s, m1.mem) == InCpu(k, s, m) && InMemory(k, Other(s), m1.mem) == InMemory(k, Other(s), m.mem)
    && |Gp(k, s)| > 0 && RegVal(m1.gp, Gp(k, s)[0]) == Tcb(k, Other(s))
  }

  lemma FirstHalf(k: Plan, s: Side, m: Machine) returns (m1: Machine)
    requires WellFormed(k) && Running(k, s, m)
    ensures var mine, theirs := Gp(k, s), Gp(k, Other(s));
            m1 == Exec(Interrupt(m), Saves(k, s, theirs[0]) + Middle(k, s, theirs[0], theirs[1], mine[0]))
    ensures Halfway(k, s, m, m1) && MemVal(Interrupt(m).mem, k.vector) == Isr(k, s)
    ensures m1.ports == m.ports + [(0x20, 0x20)] && !m1.inService
  {
    var i := Interrupt(m);
    InterruptSpares(k, m);
    TcbGuarded(k, s);
    m1 := Outgoing(k, s, i);
    HalfwaySeen(k, s, m, i, m1);
  }

  lemma HalfwaySeen(k: Plan, s: Side, m: Machine, i: Machine, m1: Machine)
    requires |Gp(k, s)| > 0 && SameGuarded(k, m.mem, i.mem) && i.gp == m.gp && i.xmm == m.xmm
    requires MemVal(i.mem, i.rsp) == m.rip && MemVal(i.mem, i.rsp + 16) == m.rflags && MemVal(i.mem, i.rsp + 24) == m.rsp
    requires RegVal(m1.gp, Gp(k, s)[0]) == Tcb(k, Other(s))
    requires MemVal(m1.mem, k.cur) == Tcb(k, Other(s)) && MemVal(m1.mem, k.next) == Tcb(k, s) && MemVal(m1.mem, k.vector) == Isr(k, Other(s))
    requires InMemory(k, s, m1.mem) == InCpu(k, s, i).(rip := MemVal(i.mem, i.rsp), rflags := MemVal(i.mem, i.rsp + 16), rsp := MemVal(i.mem, i.rsp + 24))
    requires forall a :: InTcb(k, Other(s), a) ==> MemVal(m1.mem, a) == MemVal(i.mem, a)
    ensures Halfway(k, s, m, m1)
  {
    assert Other(s) == Left || Other(s) == Right;
    SameTcb(k, Other(s), m.mem, i.mem);
    SameTcb(k, Other(s), i.mem, m1.mem);
  }

  /** One tick moves the running side's context into its TCB, brings in the other
      side's, names the other side's routine for the next tick, and acknowledges the
      interrupt with one byte, behind the saves and ahead of the return. */
  lemma TickSwitches(k: Plan, s: Side, m: Machine) returns (r: Machine)
    requires WellFormed(k) && Running(k, s, m)
    ensures r == Tick(k, m) && Running(k, Other(s), r)
    ensures InMemory(k, s, r.mem) == InCpu(k, s, m) && InCpu(k, Other(s), r) == InMemory(k, Other(s), m.mem)
    ensures r.ports == m.ports + [(0x20, 0x20)]
  {
    var m1 := FirstHalf(k, s, m);
    r := SecondHalf(k, s, m, m1);
    TickRuns(k, s, m, m1, r);
  }

  lemma SecondHalf(k: Plan, s: Side, m: Machine, m1: Machine) returns (r: Machine)
    requires WellFormed(k) && Running(k, s, m) && Halfway(k, s, m, m1) && !m1.inService
    ensures r.ports == m1.ports
    ensures var mine := Gp(k, s);
            r == Exec(m1, Restores(k, Other(s), mine[0]) + Leave(mine[0], mine[1], mine[2], mine[3]))
    ensures Running(k, Other(s), r) && InMemory(k, s, r.mem) == InCpu(k, s, m) && InCpu(k, Other(s), r) == InMemory(k, Other(s), m.mem)
  {
    assert InMemory(k, Other(s), m1.mem).rsp == InMemory(k, Other(s), m.mem).rsp;
    r := Incoming(k, s, m1);
    SwitchedMemory(k, s, m, m1, r);
  }

  lemma SwitchedMemory(k: Plan, s: Side, m: Machine, m1: Machine, r: Machine)
    requires Running(k, s, m) && SameGuarded(k, m1.mem, r.mem) && r.cs == 0x08 && r.ss == 0x10 && !r.inService
    requires InMemory(k, s, m1.mem) == InCpu(k, s, m) && InMemory(k, Other(s), m1.mem) == InMemory(k, Other(s), m.mem)
    requires InCpu(k, Other(s), r) == InMemory(k, Other(s), m1.mem)
    requires MemVal(m1.mem, k.cur) == Tcb(k, Other(s)) && MemVal(m1.mem, k.next) == Tcb(k, s) && MemVal(m1.mem, k.vector) == Isr(k, Other(s))
    ensures Running(k, Other(s), r) && InMemory(k, s, r.mem) == InCpu(k, s, m)
    ensures InCpu(k, Other(s), r) == InMemory(k, Other(s), m.mem)
  {
    TcbGuarded(k, s);
    assert s == Left || s == Right;
    SameTcb(k, s, m1.mem, r.mem);
    assert InMemory(k, s, r.mem).rsp == MemVal(r.mem, Tcb(k, s));
  }

  lemma TickRuns(k: Plan, s: Side, m: Machine, m1: Machine, r: Machine)
    requires WellFormed(k) && MemVal(Interrupt(m).mem, k.vector) == Isr(k, s) && !m.inService
    requires var mine, theirs := Gp(k, s), Gp(k, Other(s));
             && m1 == Exec(Interrupt(m), Saves(k, s, theirs[0]) + Middle(k, s, theirs[0], theirs[1], mine[0]))
             && r == Exec(m1, Restores(k, Other(s), mine[0]) + Leave(mine[0], mine[1], mine[2], mine[3]))
    ensures Tick(k, m) == r
  {
    var mine, theirs := Gp(k, s), Gp(k, Other(s));
    var a, b := Saves(k, s, theirs[0]) + Middle(k, s, theirs[0], theirs[1], mine[0]),
                Restores(k, Other(s), mine[0]) + Leave(mine[0], mine[1], mine[2], mine[3]);
    assert s == Left || s == Right;
    assert Routine(k, s) == a + b;
    ExecAppend(Interrupt(m), a, b);
  }

  /** A context in memory depends on nothing but its TCB. */
  lemma SameTcb(k: Plan, s: Side, mem: map<int, int>, mem1: map<int, int>)
    requires forall a :: InTcb(k, s, a) ==> MemVal(mem1, a) == MemVal(mem, a)
    ensures InMemory(k, s, mem1) == InMemory(k, s, mem)
  {
    var t := Tcb(k, s);
    TcbGuarded(k, s);
    assert InTcb(k, s, t) && InTcb(k, s, t + 8) && InTcb(k, s, t + 16);
  }

  // ---- any interleaving ----

  /** What can happen: the timer fires, or the running thread does some work and
      leaves these registers, stack pointer, flags, instruction pointer and memory. */
  datatype Event = Timer | Work(gp: map<Reg, int>, xmm: map<Xmm, int>, rsp: int, rip: int, rflags: int, mem: map<int, int>)

  /** A thread touches no switcher memory and leaves room for an interrupt frame on its
      stack.  It may write any register, also outside its own group. */
  ghost predicate Allowed(k: Plan, e: Event) {
    e.Work? ==> (forall a :: a in e.mem ==> !Guarded(k, a)) && SafeStack(k, e.rsp)
  }

  function Happens(k: Plan, m: Machine, e: Event): Machine
    requires forall s :: |Gp(k, s)| >= 4
  {
    match e
    case Timer => Tick(k, m)
    case Work(gp, xmm, rsp, rip, rflags, mem) =>
      m.(gp := m.gp + gp, xmm := m.xmm + xmm, rsp := rsp, rip := rip, rflags := rflags, mem := m.mem + mem)
  }

  function MachineRun(k: Plan, m: Machine, es: seq<Event>): Machine
    requires forall s :: |Gp(k, s)| >= 4
  {
    if es == [] then m else Happens(k, MachineRun(k, m, es[..|es| - 1]), es[|es| - 1])
  }

  /** Two threads with a context each; a tick changes nothing but whose turn it is. */
  datatype Ideal = Ideal(turn: Side, contexts: map<Side, Context>)

  function ContextOf(d: Ideal, s: Side): Context {
    if s in d.contexts then d.contexts[s] else Context([], [], 0, 0, 0)
  }

  /** The context after the thread's own work. */
  function Worked(k: Plan, s: Side, c: Context, e: Event): Context
    requires e.Work? && |c.gp| == |Gp(k, s)| && |c.xmm| == |Xmms(k, s)|
  {
    Context(seq(|c.gp|, i requires 0 <= i < |c.gp| => if Gp(k, s)[i] in e.gp then e.gp[Gp(k, s)[i]] else c.gp[i]),
            seq(|c.xmm|, i requires 0 <= i < |c.xmm| => if Xmms(k, s)[i] in e.xmm then e.xmm[Xmms(k, s)[i]] else c.xmm[i]),
            e.rsp, e.rip, e.rflags)
  }

  function IdealStep(k: Plan, d: Ideal, e: Event): Ideal {
    match e
    case Timer => d.(turn := Other(d.turn))
    case Work(_, _, _, _, _, _) =>
      var c := ContextOf(d, d.turn);
      if |c.gp| == |Gp(k, d.turn)| && |c.xmm| == |Xmms(k, d.turn)|
      then d.(contexts := d.contexts[d.turn := Worked(k, d.turn, c, e)]) else d
  }

  function IdealRun(k: Plan, d: Ideal, es: seq<Event>): Ideal {
    if es == [] then d else IdealStep(k, IdealRun(k, d, es[..|es| - 1]), es[|es| - 1])
  }

  /** Every event is allowed. */
  ghost predicate Behaves(k: Plan, es: seq<Event>) {
    forall i :: 0 <= i < |es| ==> Allowed(k, es[i])
  }

  /** The machine holds both contexts: one in the processor, one in its TCB. */
  ghost predicate Holds(k: Plan, m: Machine, d: Ideal) {
    && Running(k, d.turn, m)
    && InCpu(k, d.turn, m) == ContextOf(d, d.turn) && InMemory(k, Other(d.turn), m.mem) == ContextOf(d, Other(d.turn))
  }

  lemma WorkKeeps(k: Plan, m: Machine, d: Ideal, e: Event)
    requires WellFormed(k) && Holds(k, m, d) && e.Work? && Allowed(k, e)
    ensures Holds(k, Happens(k, m, e), IdealStep(k, d, e))
  {
    var s, o, r := d.turn, Other(d.turn), Happens(k, m, e);
    TcbGuarded(k, o);
    assert o == Left || o == Right;
    SameTcb(k, o, m.mem, r.mem);
    WorkedInCpu(k, s, m, e);
  }

  lemma WorkedInCpu(k: Plan, s: Side, m: Machine, e: Event)
    requires WellFormed(k) && e.Work?
    ensures InCpu(k, s, Happens(k, m, e)) == Worked(k, s, InCpu(k, s, m), e)
  {
    var r := Happens(k, m, e);
    assert InCpu(k, s, r).gp == Worked(k, s, InCpu(k, s, m), e).gp;
    assert InCpu(k, s, r).xmm == Worked(k, s, InCpu(k, s, m), e).xmm;
  }

  lemma TimerKeeps(k: Plan, m: Machine, d: Ideal)
    requires WellFormed(k) && Holds(k, m, d)
    ensures Holds(k, Tick(k, m), IdealStep(k, d, Timer))
  {
    var r := TickSwitches(k, d.turn, m);
    assert Other(Other(d.turn)) == d.turn;
  }

  /** Isolation: under any interleaving of thread work and ticks, whatever registers
      the threads write, each thread's group context is what its own work made it,
      and the vector names the routine of the side that runs. */
  lemma {:induction false} Isolation(k: Plan, m: Machine, d: Ideal, es: seq<Event>)
    requires WellFormed(k) && Holds(k, m, d) && Behaves(k, es)
    ensures Holds(k, MachineRun(k, m, es), IdealRun(k, d, es))
    ensures MemVal(MachineRun(k, m, es).mem, k.vector) == Isr(k, IdealRun(k, d, es).turn)
    decreases |es|
  {
    if es != [] {
      var n := |es| - 1;
      Isolation(k, m, d, es[..n]);
      var m0, d0 := MachineRun(k, m, es[..n]), IdealRun(k, d, es[..n]);
      match es[n] {
        case Timer => TimerKeeps(k, m0, d0);
        case Work(_, _, _, _, _, _) => WorkKeeps(k, m0, d0, es[n]);
      }
    }
  }

  /** The other thread's turn leaves a context alone. */
  lemma {:induction false} WorkElsewhere(k: Plan, d: Ideal, es: seq<Event>)
    requires forall i :: 0 <= i < |es| ==> es[i].Work?
    ensures IdealRun(k, d, es).turn == d.turn && ContextOf(IdealRun(k, d, es), Other(d.turn)) == ContextOf(d, Other(d.turn))
    decreases |es|
  {
    if es != [] {
      WorkElsewhere(k, d, es[..|es| - 1]);
    }
  }

  lemma {:induction false} IdealSplits(k: Plan, d: Ideal, a: seq<Event>, b: seq<Event>)
    ensures IdealRun(k, d, a + b) == IdealRun(k, IdealRun(k, d, a), b)
    decreases |b|
  {
    if b == [] {
      assert a + b == a;
    } else {
      assert (a + b)[..|a + b| - 1] == a + b[..|b| - 1];
      IdealSplits(k, d, a, b[..|b| - 1]);
    }
  }

  /** The layout of a preempted thread's block, in bytes from its start: stack pointer,
      instruction pointer, flags, then the group's registers and its vector registers. */
  lemma BlockLayout(k: Plan, s: Side, m: Machine)
    requires WellFormed(k) && Running(k, s, m)
    ensures var r, t, n := Tick(k, m), Tcb(k, s), |Gp(k, s)|;
            && MemVal(r.mem, t) == m.rsp && MemVal(r.mem, t + 8) == m.rip && MemVal(r.mem, t + 16) == m.rflags
            && (forall i :: 0 <= i < n ==> MemVal(r.mem, t + 24 + 8 * i) == RegVal(m.gp, Gp(k, s)[i]))
            && (forall i :: 0 <= i < |Xmms(k, s)| ==> MemVal(r.mem, t + 24 + 8 * n + 16 * i) == XmmVal(m.xmm, Xmms(k, s)[i]))
  {
    var r := TickSwitches(k, s, m);
    SameLayout(k, s, m, r.mem);
  }

  lemma SameLayout(k: Plan, s: Side, m: Machine, mem: map<int, int>)
    requires InMemory(k, s, mem) == InCpu(k, s, m)
    ensures var t, n := Tcb(k, s), |Gp(k, s)|;
            && MemVal(mem, t) == m.rsp && MemVal(mem, t + 8) == m.rip && MemVal(mem, t + 16) == m.rflags
            && (forall i :: 0 <= i < n ==> MemVal(mem, t + 24 + 8 * i) == RegVal(m.gp, Gp(k, s)[i]))
            && (forall i :: 0 <= i < |Xmms(k, s)| ==> MemVal(mem, t + 24 + 8 * n + 16 * i) == XmmVal(m.xmm, Xmms(k, s)[i]))
  {
    var c, d := InMemory(k, s, mem), InCpu(k, s, m);
    forall i | 0 <= i < |Gp(k, s)|
      ensures MemVal(mem, Tcb(k, s) + 24 + 8 * i) == RegVal(m.gp, Gp(k, s)[i])
    {
      assert c.gp[i] == d.gp[i];
    }
    forall i | 0 <= i < |Xmms(k, s)|
      ensures MemVal(mem, Tcb(k, s) + 24 + 8 * |Gp(k, s)| + 16 * i) == XmmVal(m.xmm, Xmms(k, s)[i])
    {
      assert c.xmm[i] == d.xmm[i];
    }
  }

  /** Every tick that is delivered is acknowledged: after any run as many ends of
      interrupt have been sent, and nothing else, as there were ticks. */
  lemma {:induction false} EveryTickAcknowledged(k: Plan, m: Machine, d: Ideal, es: seq<Event>)
    requires WellFormed(k) && Holds(k, m, d) && Behaves(k, es)
    ensures MachineRun(k, m, es).ports == m.ports + Ends(Ticks(es)) && !MachineRun(k, m, es).inService
    decreases |es|
  {
    if es == [] {
      assert m.ports + [] == m.ports;
    } else {
      var n := |es| - 1;
      EveryTickAcknowledged(k, m, d, es[..n]);
      Isolation(k, m, d, es[..n]);
      OneMoreAcknowledged(k, MachineRun(k, m, es[..n]), IdealRun(k, d, es[..n]).turn, es[n], m.ports, Ticks(es[..n]));
    }
  }

  lemma OneMoreAcknowledged(k: Plan, m: Machine, s: Side, e: Event, ports: seq<(int, int)>, n: nat)
    requires WellFormed(k) && Running(k, s, m) && m.ports == ports + Ends(n)
    ensures Happens(k, m, e).ports == ports + Ends(if e.Timer? then n + 1 else n) && !Happens(k, m, e).inService
  {
    if e.Timer? {
      var r := TickSwitches(k, s, m);
      assert Ends(n + 1) == Ends(n) + [(0x20, 0x20)];
    }
  }

  function Ticks(es: seq<Event>): nat {
    if es == [] then 0 else Ticks(es[..|es| - 1]) + if es[|es| - 1].Timer? then 1 else 0
  }

  function Ends(n: nat): seq<(int, int)> { seq(n, _ => (0x20, 0x20)) }

  /** A preempted thread resumes with exactly the group registers, instruction
      pointer, flags and stack pointer it was preempted with, whatever registers the
      other thread writes in between. */
  lemma ResumesAsPreempted(k: Plan, m: Machine, d: Ideal, work: seq<Event>)
    requires WellFormed(k) && Holds(k, m, d) && forall i :: 0 <= i < |work| ==> work[i].Work?
    requires Behaves(k, work)
    ensures InCpu(k, d.turn, MachineRun(k, m, [Timer] + work + [Timer])) == InCpu(k, d.turn, m)
  {
    var es := [Timer] + work + [Timer];
    Isolation(k, m, d, es);
    IdealSplits(k, d, [Timer] + work, [Timer]);
    IdealSplits(k, d, [Timer], work);
    var d1 := IdealRun(k, d, [Timer]);
    assert [Timer][..0] == [];
    assert d1 == IdealStep(k, d, Timer);
    WorkElsewhere(k, d1, work);
    assert IdealRun(k, d, es) == IdealStep(k, IdealRun(k, d1, work), Timer);
  }
}
