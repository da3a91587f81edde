/** What the switcher does not save: a register outside the allocation pool, such as
    the frame pointer, passes from thread to thread. */
module FramePointers {
  import opened Switcher
  import opened SwitchRoutine
  import opened ThreadIsolation

  /** The groups are drawn from the allocator's pool, as the generator does. */
  ghost predicate FromPool(k: Plan) {
    forall s, r :: r in Gp(k, s) ==> r in GP_POOL
  }

  predicate Spares(i: Ins) { !(i.Mov? && i.dst == ToReg(Rbp)) }

  predicate AllSpare(code: seq<Ins>) { forall n :: 0 <= n < |code| ==> Spares(code[n]) }

  lemma {:induction false} SparedTo(m: Machine, code: seq<Ins>, n: nat)
    requires n <= |code| && AllSpare(code)
    ensures RegVal(ExecTo(m, code, n).gp, Rbp) == RegVal(m.gp, Rbp)
  {
    if n > 0 {
      SparedTo(m, code, n - 1);
      assert Spares(code[n - 1]);
    }
  }

  lemma {:induction false} SavesSpare(base: Reg, off: int, regs: seq<Reg>, xs: seq<Xmm>, n: nat)
    ensures n <= |regs| ==> AllSpare(SaveGp(base, regs, n))
    ensures n <= |xs| ==> AllSpare(SaveXmm(base, off, xs, n)) && AllSpare(RestoreXmm(base, off, xs, n))
  {
    if n > 0 {
      SavesSpare(base, off, regs, xs, n - 1);
    }
  }

  lemma {:induction false} RestoresSpare(base: Reg, regs: seq<Reg>, n: nat)
    requires n <= |regs| && Rbp !in regs
    ensures AllSpare(RestoreGp(base, regs, n))
  {
    if n > 0 {
      RestoresSpare(base, regs, n - 1);
    }
  }

  lemma FixedSpare(k: Plan, s: Side, s0: Reg, s1: Reg, base: Reg, f0: Reg, f1: Reg, f2: Reg)
    requires s1 != Rbp && base != Rbp && f0 != Rbp && f1 != Rbp && f2 != Rbp
    ensures AllSpare(Middle(k, s, s0, s1, base)) && AllSpare(Leave(base, f0, f1, f2))
  {
  }

  lemma RoutineSpares(k: Plan, s: Side)
    requires FromPool(k) && |Gp(k, s)| >= 4 && |Gp(k, Other(s))| >= 2
    ensures AllSpare(Routine(k, s))
  {
    var mine, theirs := Gp(k, s), Gp(k, Other(s));
    assert Rbp !in GP_POOL;
    forall r, t | r in Gp(k, t)
      ensures r != Rbp
    {
      assert r in GP_POOL;
    }
    assert mine[0] in mine && mine[1] in mine && mine[2] in mine && mine[3] in mine && theirs[0] in theirs && theirs[1] in theirs;
    SavesSpare(theirs[0], XmmOff(mine), mine, Xmms(k, s), |mine|);
    SavesSpare(theirs[0], XmmOff(mine), mine, Xmms(k, s), |Xmms(k, s)|);
    SavesSpare(mine[0], XmmOff(theirs), theirs, Xmms(k, Other(s)), |Xmms(k, Other(s))|);
    RestoresSpare(mine[0], theirs, |theirs|);
    FixedSpare(k, s, theirs[0], theirs[1], mine[0], mine[1], mine[2], mine[3]);
    assert AllSpare(Saves(k, s, theirs[0])) && AllSpare(Restores(k, Other(s), mine[0]));
  }

  lemma TickSpares(k: Plan, m: Machine)
    requires FromPool(k) && forall s :: |Gp(k, s)| >= 4
    ensures RegVal(Tick(k, m).gp, Rbp) == RegVal(m.gp, Rbp)
  {
    forall s: Side
      ensures RegVal(Exec(Interrupt(m), Routine(k, s)).gp, Rbp) == RegVal(m.gp, Rbp)
    {
      RoutineSpares(k, s);
      SparedTo(Interrupt(m), Routine(k, s), |Routine(k, s)|);
    }
  }

  /** The frame pointer as the last work that touched it left it, whoever did it. */
  function LastWritten(es: seq<Event>, start: int): int {
    if es == [] then start
    else
      var e := es[|es| - 1];
      if e.Work? && Rbp in e.gp then e.gp[Rbp] else LastWritten(es[..|es| - 1], start)
  }

  /** Ticks leave the frame pointer alone: both threads have the same one. */
  lemma {:induction false} FramePointerIsShared(k: Plan, m: Machine, es: seq<Event>)
    requires FromPool(k) && forall s :: |Gp(k, s)| >= 4
    ensures RegVal(MachineRun(k, m, es).gp, Rbp) == LastWritten(es, RegVal(m.gp, Rbp))
    decreases |es|
  {
    if es != [] {
      var before := es[..|es| - 1];
      FramePointerIsShared(k, m, before);
      if es[|es| - 1].Timer? {
        TickSpares(k, MachineRun(k, m, before));
      }
    }
  }

  predicate WritesFramePointer(e: Event) { e.Work? && Rbp in e.gp }

  /** The same events, with another value for the frame pointer wherever it is written. */
  function Leaving(es: seq<Event>, v: int): seq<Event> {
    seq(|es|, i requires 0 <= i < |es| => if WritesFramePointer(es[i]) then es[i].(gp := es[i].gp[Rbp := v]) else es[i])
  }

  lemma {:induction false} LastLeft(es: seq<Event>, v: int, start: int)
    ensures LastWritten(Leaving(es, v), start) == if exists i :: 0 <= i < |es| && WritesFramePointer(es[i]) then v else start
    decreases |es|
  {
    if es != [] {
      var n := |es| - 1;
      assert Leaving(es, v)[..n] == Leaving(es[..n], v);
      LastLeft(es[..n], v, start);
      if !WritesFramePointer(es[n]) {
        assert (exists i :: 0 <= i < |es| && WritesFramePointer(es[i])) <==> (exists i :: 0 <= i < n && WritesFramePointer(es[..n][i]));
      }
    }
  }

  /** Over any run, the frame pointer is at the end what it was at the start, whatever
      values are computed for it, if and only if nothing in the run writes it.  So a
      preempted thread (a tick, the other thread's work, a tick) gets its own back
      exactly if the other thread does not use that register. */
  lemma FramePointerKept(k: Plan, m: Machine, es: seq<Event>)
    requires FromPool(k) && forall s :: |Gp(k, s)| >= 4
    ensures (forall v :: RegVal(MachineRun(k, m, Leaving(es, v)).gp, Rbp) == RegVal(m.gp, Rbp))
            <==> forall i :: 0 <= i < |es| ==> !WritesFramePointer(es[i])
  {
    forall v
      ensures RegVal(MachineRun(k, m, Leaving(es, v)).gp, Rbp)
              == if exists i :: 0 <= i < |es| && WritesFramePointer(es[i]) then v else RegVal(m.gp, Rbp)
    {
      FramePointerIsShared(k, m, Leaving(es, v));
      LastLeft(es, v, RegVal(m.gp, Rbp));
    }
    if exists i :: 0 <= i < |es| && WritesFramePointer(es[i]) {
      var v := RegVal(m.gp, Rbp) + 1;
      assert RegVal(MachineRun(k, m, Leaving(es, v)).gp, Rbp) == v;
    }
  }
}
