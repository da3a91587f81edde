/** The preemptive two-thread timer path: the machine it runs on, and the lines the
    generator emits, one instruction each. */
module Switcher {

  // ---- the machine ----

  datatype Reg = Rax | Rcx | Rdx | Rsi | Rdi | R8 | R9 | R10 | R11 | Rbx | R12 | R13 | R14 | R15 | Rbp

  /** The allocator's registers, in its preferred order: rbp is not one of them. */
  const GP_POOL := [Rax, Rcx, Rdx, Rsi, Rdi, R8, R9, R10, R11, Rbx, R12, R13, R14, R15]

  type Xmm = nat

  /** The processor, its memory, the bytes written to ports, and whether the interrupt
      controller is still waiting for the end of a timer interrupt. */
  datatype Machine = Machine(gp: map<Reg, int>, xmm: map<Xmm, int>, rsp: int, rip: int, rflags: int, cs: int, ss: int,
                             mem: map<int, int>, ports: seq<(int, int)>, inService: bool)

  const PIC_PORT := 0x20
  const END_OF_INTERRUPT := 0x20
  const KERNEL_CS := 0x08
  const KERNEL_SS := 0x10

  function RegVal(m: map<Reg, int>, r: Reg): int { if r in m then m[r] else 0 }
  function XmmVal(m: map<Xmm, int>, x: Xmm): int { if x in m then m[x] else 0 }
  function MemVal(m: map<int, int>, a: int): int { if a in m then m[a] else 0 }

  // ---- instructions ----

  datatype Address = Abs(addr: int) | At(base: Reg, off: int) | AtRsp(off: int)

  datatype Target = ToReg(r: Reg) | ToXmm(x: Xmm) | ToRsp | ToMem(a: Address)

  datatype Source = FromReg(r: Reg) | FromXmm(x: Xmm) | FromMem(a: Address) | Const(n: int) | Low(r: Reg, span: int, n: int) | Minus(r: Reg, n: int)

  datatype Ins = Mov(dst: Target, src: Source) | Out | Iretq

  function AddressOf(m: Machine, a: Address): int {
    match a
    case Abs(addr) => addr
    case At(base, off) => RegVal(m.gp, base) + off
    case AtRsp(off) => m.rsp + off
  }

  function Fetch(m: Machine, s: Source): int {
    match s
    case FromReg(r) => RegVal(m.gp, r)
    case FromXmm(x) => XmmVal(m.xmm, x)
    case FromMem(a) => MemVal(m.mem, AddressOf(m, a))
    case Const(n) => n
    case Low(r, span, n) => if span > 0 then RegVal(m.gp, r) - RegVal(m.gp, r) % span + n else n
    case Minus(r, n) => RegVal(m.gp, r) - n
  }

  function Put(m: Machine, t: Target, v: int): Machine {
    match t
    case ToReg(r) => m.(gp := m.gp[r := v])
    case ToXmm(x) => m.(xmm := m.xmm[x := v])
    case ToRsp => m.(rsp := v)
    case ToMem(a) => m.(mem := m.mem[AddressOf(m, a) := v])
  }

  function Do(m: Machine, i: Ins): Machine {
    match i
    case Mov(dst, src) => Put(m, dst, Fetch(m, src))
    case Out =>
      // the low byte of rax goes to the port named by the low word of rdx
      var (port, value) := (RegVal(m.gp, Rdx) % 0x10000, RegVal(m.gp, Rax) % 0x100);
      m.(ports := m.ports + [(port, value)], inService := m.inService && !(port == PIC_PORT && value == END_OF_INTERRUPT))
    case Iretq =>
      m.(rip := MemVal(m.mem, m.rsp), cs := MemVal(m.mem, m.rsp + 8), rflags := MemVal(m.mem, m.rsp + 16),
         ss := MemVal(m.mem, m.rsp + 32), rsp := MemVal(m.mem, m.rsp + 24))
  }

  // The emitted lines, by what they are for.

  function LoadAbs(r: Reg, addr: int): Ins { Mov(ToReg(r), FromMem(Abs(addr))) }
  function StoreAbs(addr: int, r: Reg): Ins { Mov(ToMem(Abs(addr)), FromReg(r)) }
  function Load(r: Reg, base: Reg, off: int): Ins { Mov(ToReg(r), FromMem(At(base, off))) }
  function Store(base: Reg, off: int, r: Reg): Ins { Mov(ToMem(At(base, off)), FromReg(r)) }
  function StoreConst(base: Reg, off: int, n: int): Ins { Mov(ToMem(At(base, off)), Const(n)) }
  function LoadX(x: Xmm, base: Reg, off: int): Ins { Mov(ToXmm(x), FromMem(At(base, off))) }
  function StoreX(base: Reg, off: int, x: Xmm): Ins { Mov(ToMem(At(base, off)), FromXmm(x)) }
  function LoadFrame(r: Reg, off: int): Ins { Mov(ToReg(r), FromMem(AtRsp(off))) }
  function MovLow(r: Reg, span: int, n: int): Ins { Mov(ToReg(r), Low(r, span, n)) }
  function Lea(r: Reg, addr: int): Ins { Mov(ToReg(r), Const(addr)) }
  function Sub(r: Reg, n: int): Ins { Mov(ToReg(r), Minus(r, n)) }
  function MovRsp(r: Reg): Ins { Mov(ToRsp, FromReg(r)) }

  function ExecTo(m: Machine, code: seq<Ins>, n: nat): Machine
    requires n <= |code|
  {
    if n == 0 then m else Do(ExecTo(m, code, n - 1), code[n - 1])
  }

  function Exec(m: Machine, code: seq<Ins>): Machine {
    ExecTo(m, code, |code|)
  }

  lemma {:induction false} ExecPrefix(m: Machine, a: seq<Ins>, b: seq<Ins>, n: nat)
    requires n <= |a|
    ensures ExecTo(m, a + b, n) == ExecTo(m, a, n)
  {
    if n > 0 {
      ExecPrefix(m, a, b, n - 1);
    }
  }

  lemma {:induction false} ExecSuffix(m: Machine, a: seq<Ins>, b: seq<Ins>, n: nat)
    requires n <= |b|
    ensures ExecTo(m, a + b, |a| + n) == ExecTo(Exec(m, a), b, n)
  {
    if n == 0 {
      ExecPrefix(m, a, b, |a|);
    } else {
      ExecSuffix(m, a, b, n - 1);
    }
  }

  lemma ExecAppend(m: Machine, a: seq<Ins>, b: seq<Ins>)
    ensures Exec(m, a + b) == Exec(Exec(m, a), b)
  {
    ExecSuffix(m, a, b, |b|);
  }

  // ---- the plan ----

  datatype Side = Left | Right

  function Other(s: Side): Side { if s == Left then Right else Left }

  /** The two register groups in pool order, and where things are in memory. */
  datatype Plan = Plan(gp: map<Side, seq<Reg>>, xmm: map<Side, seq<Xmm>>, tcb: map<Side, int>, isr: map<Side, int>,
                       cur: int, next: int, vector: int)

  function Gp(k: Plan, s: Side): seq<Reg> { if s in k.gp then k.gp[s] else [] }
  function Xmms(k: Plan, s: Side): seq<Xmm> { if s in k.xmm then k.xmm[s] else [] }
  function SideVal(m: map<Side, int>, s: Side): int { if s in m then m[s] else 0 }
  function Tcb(k: Plan, s: Side): int { SideVal(k.tcb, s) }
  function Isr(k: Plan, s: Side): int { SideVal(k.isr, s) }

  /** `x` is listed ahead of `y`. */
  ghost predicate InOrder<T>(pool: seq<T>, x: T, y: T) {
    exists a, b :: 0 <= a < b < |pool| && pool[a] == x && pool[b] == y
  }

  /** The registers of `pool` that are in `used`, in pool order. */
  method InPoolOrder<T(==)>(pool: seq<T>, used: set<T>) returns (r: seq<T>)
    requires forall i, j :: 0 <= i < j < |pool| ==> pool[i] != pool[j]
    ensures forall x :: x in r <==> x in pool && x in used
    ensures forall i, j :: 0 <= i < j < |r| ==> r[i] != r[j] && InOrder(pool, r[i], r[j])
  {
    r := [];
    for k := 0 to |pool|
      invariant forall x :: x in r <==> x in pool[..k] && x in used
      invariant forall i, j :: 0 <= i < j < |r| ==> r[i] != r[j] && InOrder(pool, r[i], r[j])
    {
      assert pool[..k + 1] == pool[..k] + [pool[k]];
      forall i | 0 <= i < |r|
        ensures InOrder(pool, r[i], pool[k])
      {
        assert r[i] in r;
        var a :| 0 <= a < k && pool[..k][a] == r[i];
        assert pool[a] == r[i];
      }
      if pool[k] in used {
        r := r + [pool[k]];
      }
    }
    assert pool[..|pool|] == pool;
  }

  // ---- the emitted routine ----

  const RIP_OFF := 8
  const FLAGS_OFF := 16
  const GROUP_OFF := 24

  function SaveGp(base: Reg, regs: seq<Reg>, n: nat): seq<Ins>
    requires n <= |regs|
  {
    if n == 0 then [] else SaveGp(base, regs, n - 1) + [Store(base, GROUP_OFF + 8 * (n - 1), regs[n - 1])]
  }

  function SaveXmm(base: Reg, off: int, xs: seq<Xmm>, n: nat): seq<Ins>
    requires n <= |xs|
  {
    if n == 0 then [] else SaveXmm(base, off, xs, n - 1) + [StoreX(base, off + 16 * (n - 1), xs[n - 1])]
  }

  function RestoreGp(base: Reg, regs: seq<Reg>, n: nat): seq<Ins>
    requires n <= |regs|
  {
    if n == 0 then [] else RestoreGp(base, regs, n - 1) + [Load(regs[n - 1], base, GROUP_OFF + 8 * (n - 1))]
  }

  function RestoreXmm(base: Reg, off: int, xs: seq<Xmm>, n: nat): seq<Ins>
    requires n <= |xs|
  {
    if n == 0 then [] else RestoreXmm(base, off, xs, n - 1) + [LoadX(xs[n - 1], base, off + 16 * (n - 1))]
  }

  function XmmOff(regs: seq<Reg>): int { GROUP_OFF + 8 * |regs| }

  /** Copy the interrupt frame, acknowledge the timer, flip the vector, swap the TCBs. */
  function Middle(k: Plan, s: Side, s0: Reg, s1: Reg, base: Reg): seq<Ins> {
    [ LoadFrame(s1, 0), Store(s0, RIP_OFF, s1),
      LoadFrame(s1, 16), Store(s0, FLAGS_OFF, s1),
      LoadFrame(s1, 24), Store(s0, 0, s1),
      MovLow(Rax, 0x100, 0x20), MovLow(Rdx, 0x10000, 0x20), Out,
      Lea(s1, Isr(k, Other(s))), StoreAbs(k.vector, s1),
      LoadAbs(s1, k.cur), LoadAbs(base, k.next), StoreAbs(k.next, s1), StoreAbs(k.cur, base) ]
  }

  /** Build the incoming thread's interrupt frame and return through it. */
  function Leave(base: Reg, f0: Reg, f1: Reg, f2: Reg): seq<Ins> {
    [ Load(f0, base, 0), Load(f1, base, RIP_OFF), Load(f2, base, FLAGS_OFF),
      Sub(f0, 40), Store(f0, 0, f1), StoreConst(f0, 8, 0x08), Store(f0, 16, f2),
      Load(f1, base, 0), Store(f0, 24, f1), StoreConst(f0, 32, 0x10),
      MovRsp(f0), Iretq ]
  }

  function Saves(k: Plan, s: Side, s0: Reg): seq<Ins> {
    [LoadAbs(s0, k.cur)] + SaveGp(s0, Gp(k, s), |Gp(k, s)|) + SaveXmm(s0, XmmOff(Gp(k, s)), Xmms(k, s), |Xmms(k, s)|)
  }

  function Restores(k: Plan, o: Side, base: Reg): seq<Ins> {
    RestoreGp(base, Gp(k, o), |Gp(k, o)|) + RestoreXmm(base, XmmOff(Gp(k, o)), Xmms(k, o), |Xmms(k, o)|)
  }

  /** The routine that runs when the timer interrupts side `s`: scratch registers
      from the incoming group, then base and frame registers from the outgoing one. */
  function Routine(k: Plan, s: Side): seq<Ins>
    requires |Gp(k, s)| >= 4 && |Gp(k, Other(s))| >= 2
  {
    var mine, theirs := Gp(k, s), Gp(k, Other(s));
    Saves(k, s, theirs[0]) + Middle(k, s, theirs[0], theirs[1], mine[0])
      + Restores(k, Other(s), mine[0]) + Leave(mine[0], mine[1], mine[2], mine[3])
  }

  /** The generator, one line at a time. */
  method Emit(k: Plan, s: Side) returns (code: seq<Ins>)
    requires |Gp(k, s)| >= 4 && |Gp(k, Other(s))| >= 2
    ensures code == Routine(k, s)
  {
    var mine, theirs, minex, theirsx := Gp(k, s), Gp(k, Other(s)), Xmms(k, s), Xmms(k, Other(s));
    var s0, s1, base := theirs[0], theirs[1], mine[0];
    code := [LoadAbs(s0, k.cur)];
    var off := GROUP_OFF;
    for i := 0 to |mine|
      invariant off == GROUP_OFF + 8 * i && code == [LoadAbs(s0, k.cur)] + SaveGp(s0, mine, i)
    {
      code := code + [Store(s0, off, mine[i])];
      off := off + 8;
    }
    ghost var saved := code;
    for i := 0 to |minex|
      invariant off == XmmOff(mine) + 16 * i && code == saved + SaveXmm(s0, XmmOff(mine), minex, i)
    {
      code := code + [StoreX(s0, off, minex[i])];
      off := off + 16;
    }
    code := code + Middle(k, s, s0, s1, base);
    off := GROUP_OFF;
    ghost var head := code;
    for i := 0 to |theirs|
      invariant off == GROUP_OFF + 8 * i && code == head + RestoreGp(base, theirs, i)
    {
      code := code + [Load(theirs[i], base, off)];
      off := off + 8;
    }
    ghost var gps := code;
    for i := 0 to |theirsx|
      invariant off == XmmOff(theirs) + 16 * i && code == gps + RestoreXmm(base, XmmOff(theirs), theirsx, i)
    {
      code := code + [LoadX(theirsx[i], base, off)];
      off := off + 16;
    }
    code := code + Leave(base, mine[1], mine[2], mine[3]);
    assert code == head + Restores(k, Other(s), base) + Leave(base, mine[1], mine[2], mine[3]);
  }

  // ---- the timer ----

  /** The processor's part of an interrupt: align the stack and push a frame. */
  function Interrupt(m: Machine): Machine {
    var top := m.rsp - m.rsp % 16;
    m.(rsp := top - 40, cs := KERNEL_CS, inService := true,
       mem := m.mem[top - 40 := m.rip][top - 32 := m.cs][top - 24 := m.rflags][top - 16 := m.rsp][top - 8 := m.ss])
  }

  /** One timer tick: the interrupt, the jump through the vector, the routine.  The
      controller delivers it only if the one before was acknowledged. */
  function Tick(k: Plan, m: Machine): Machine
    requires forall s :: |Gp(k, s)| >= 4
  {
    var i := Interrupt(m);
    if m.inService then m
    else if MemVal(i.mem, k.vector) == Isr(k, Left) then Exec(i, Routine(k, Left))
    else if MemVal(i.mem, k.vector) == Isr(k, Right) then Exec(i, Routine(k, Right))
    else i
  }
}
