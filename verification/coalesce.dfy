/** Copy coalescing: a copy `x := t` of a single-use, single-definition temporary
    disappears when `t` can live in `x`'s home from its definition on. */
module CopyCoalescing {
  import opened IL
  import opened UseCounts

  /** An accepted copy: `t` is defined at `def` and copied into `target` at `at`. */
  datatype Copy = Copy(target: Value, def: nat, at: nat)

  type Coalesced = map<Value, Copy>

  // ---- the acceptance test ----

  predicate Touches(c: Cmd, x: Value) {
    Temp(x) in Inputs(c) || Temp(x) in Outputs(c)
  }

  predicate Breaks(c: Cmd) {
    c.Label? || IsJump(c) || c.Return?
  }

  /** From `d` up to but not including `k` control is straight-line and nothing
      refers to `x`. */
  ghost predicate Window(p: seq<Cmd>, d: nat, k: nat, x: Value) {
    d <= k <= |p| && forall j :: d <= j < k ==> !Breaks(p[j]) && !Touches(p[j], x)
  }

  ghost predicate Accepted(p: seq<Cmd>, t: Value, c: Copy) {
    && c.at < |p| && p[c.at] == Set(Temp(c.target), Temp(t))
    && SingleUseAndDef(p, t)
    && t.floating == c.target.floating
    && c.def < |p| && t in Defs(p[c.def])
    && Window(p, c.def, c.at, c.target)
  }

  ghost predicate AllAccepted(p: seq<Cmd>, coal: Coalesced) {
    forall t {:trigger Accepted(p, t, coal[t])} :: t in coal ==> Accepted(p, t, coal[t])
  }

  /** The window check of one copy, by a left-to-right scan. */
  method CoalesceSafe(p: seq<Cmd>, dk: int, k: nat, x: Value) returns (safe: bool)
    requires k < |p|
    ensures safe <==> 0 <= dk && Window(p, dk, k, x)
  {
    if dk < 0 || dk > k {
      return false;
    }
    for j := dk to k
      invariant forall i :: dk <= i < j ==> !Breaks(p[i]) && !Touches(p[i], x)
    {
      if Breaks(p[j]) || Touches(p[j], x) {
        return false;
      }
    }
    return true;
  }

  /** All copies that pass the test, keyed by the temporary. */
  method FindCopies(p: seq<Cmd>) returns (coal: Coalesced)
    ensures AllAccepted(p, coal)
    ensures forall t, c :: Accepted(p, t, c) ==> t in coal && coal[t] == c
  {
    var defIdx := LastDefinitions(p, 0, |p|);
    coal := map[];
    for k := 0 to |p|
      invariant AllAccepted(p, coal)
      invariant forall t, c :: Accepted(p, t, c) && c.at < k ==> t in coal && coal[t] == c
      invariant forall t :: t in coal ==> coal[t].at < k
    {
      var c := p[k];
      if c.Set? && c.arg.Temp? && c.out.Temp? {
        var t, x := c.arg.v, c.out.v;
        var dk := if t in defIdx then defIdx[t] else -1;
        var safe := CoalesceSafe(p, dk, k, x);
        if SingleUseAndDef(p, t) && t.floating == x.floating && safe {
          FoundIsNew(p, coal, t, Copy(x, dk, k));
          coal := coal[t := Copy(x, dk, k)];
        }
      }
      forall t, d | Accepted(p, t, d) && d.at == k
        ensures t in coal && coal[t] == d
      {
        FoundIsUnique(p, defIdx, t, d);
      }
    }
  }

  lemma FoundIsUnique(p: seq<Cmd>, defIdx: map<Value, nat>, t: Value, c: Copy)
    requires LastDefs(p, 0, |p|, defIdx) && Accepted(p, t, c)
    ensures t in defIdx && c.def == defIdx[t]
  {
    assert DefinedAt(p, t, c.def);
    OneDef(p, t, c.def, defIdx[t]);
  }

  lemma FoundIsNew(p: seq<Cmd>, coal: Coalesced, t: Value, c: Copy)
    requires AllAccepted(p, coal) && Accepted(p, t, c) && forall u :: u in coal ==> coal[u].at < c.at
    ensures t !in coal
  {
    if t in coal {
      assert Accepted(p, t, coal[t]);
      assert t in Uses(p[c.at]) && t in Uses(p[coal[t].at]);
      OneUse(p, t, c.at, coal[t].at);
    }
  }

  // ---- renaming ----

  /** Follow the chain of copies from `v`, stopping at a value already seen. */
  function Canon(coal: Coalesced, v: Value, seen: set<Value> := {}): Value
    decreases coal.Keys - seen
  {
    if v in coal && v !in seen then Canon(coal, coal[v].target, seen + {v}) else v
  }

  function RenameOperand(coal: Coalesced, o: Operand): Operand {
    if o.Temp? then Temp(Canon(coal, o.v)) else o
  }

  function RenameAll(coal: Coalesced, os: seq<Operand>): (r: seq<Operand>)
    ensures |r| == |os|
  {
    seq(|os|, i requires 0 <= i < |os| => RenameOperand(coal, os[i]))
  }

  function RenameCmd(coal: Coalesced, c: Cmd): Cmd {
    match c
    case Op(code, ins, outs) => Op(code, RenameAll(coal, ins), RenameAll(coal, outs))
    case Set(out, arg) => Set(RenameOperand(coal, out), RenameOperand(coal, arg))
    case JumpZero(cond, l) => JumpZero(RenameOperand(coal, cond), l)
    case JumpNotZero(cond, l) => JumpNotZero(RenameOperand(coal, cond), l)
    case Call(fn, args, ret) => Call(fn, RenameAll(coal, args), RenameAll(coal, ret))
    case Return(result) => Return(RenameAll(coal, result))
    case _ => c
  }

  function Rename(coal: Coalesced, p: seq<Cmd>): (r: seq<Cmd>)
    ensures |r| == |p|
  {
    seq(|p|, i requires 0 <= i < |p| => RenameCmd(coal, p[i]))
  }

  /** From the moment `t` is defined up to its copy nothing touches `x`; the defining
      command itself may read it. */
  ghost predicate ClearBehind(p: seq<Cmd>, c: Copy, x: Value) {
    c.def < |p| && Temp(x) !in Outputs(p[c.def]) && Window(p, c.def + 1, c.at, x)
  }

  /** The copy of `t` is accepted and its window is also clear of the value at the
      end of its chain, whose home `t` ends up sharing: the acceptance test
      looks only at the immediate target. */
  ghost predicate LinkSafe(p: seq<Cmd>, coal: Coalesced, t: Value)
    requires t in coal
  {
    && Accepted(p, t, coal[t])
    && coal[t].def < coal[t].at
    && ClearBehind(p, coal[t], Canon(coal, t))
  }

  /** Every copy is accepted and none is its own definition: chains are well founded. */
  ghost predicate Linked(p: seq<Cmd>, coal: Coalesced) {
    forall t {:trigger Accepted(p, t, coal[t])} :: t in coal ==> Accepted(p, t, coal[t]) && coal[t].def < coal[t].at
  }

  lemma SafeIsLinked(p: seq<Cmd>, coal: Coalesced)
    requires Safe(p, coal)
    ensures Linked(p, coal)
  {
    forall t | t in coal
      ensures Accepted(p, t, coal[t]) && coal[t].def < coal[t].at
    {
      assert LinkSafe(p, coal, t);
    }
  }

  ghost predicate Safe(p: seq<Cmd>, coal: Coalesced) {
    forall t {:trigger LinkSafe(p, coal, t)} :: t in coal ==> LinkSafe(p, coal, t)
  }

  /** No copy target is itself a coalesced temporary. */
  predicate NoChains(coal: Coalesced) {
    forall t :: t in coal ==> coal[t].target !in coal
  }

  /** Without chains the acceptance test is enough. */
  lemma NoChainsIsSafe(p: seq<Cmd>, coal: Coalesced)
    requires AllAccepted(p, coal) && NoChains(coal)
    ensures Safe(p, coal)
  {
    forall t | t in coal
      ensures LinkSafe(p, coal, t)
    {
      var c := coal[t];
      assert Accepted(p, t, c);
      WindowNonempty(p, t, c);
      assert Canon(coal, t) == c.target;
    }
  }

  /** The window of a copy of another value is not empty. */
  lemma WindowNonempty(p: seq<Cmd>, t: Value, c: Copy)
    requires Accepted(p, t, c) && t != c.target
    ensures c.def < c.at
  {
    assert Outputs(p[c.at]) == [Temp(c.target)];
    assert Temp(t) in Outputs(p[c.def]);
  }

  // ---- chains of copies ----

  /** The next link of a chain starts where the copy into it is. */
  lemma NextLink(p: seq<Cmd>, coal: Coalesced, t: Value)
    requires Linked(p, coal) && t in coal && coal[t].target in coal
    ensures coal[coal[t].target].def == coal[t].at < coal[coal[t].target].at < |p|
  {
    var u := coal[t].target;
    assert Accepted(p, t, coal[t]) && Accepted(p, u, coal[u]);
    assert u in Defs(p[coal[t].at]);
    OneDef(p, u, coal[t].at, coal[u].def);
  }

  /** Links already behind do not change where a chain ends. */
  lemma {:induction false} CanonUnseen(p: seq<Cmd>, coal: Coalesced, v: Value, seen: set<Value>)
    requires Linked(p, coal)
    requires v in coal ==> forall s :: s in seen && s in coal ==> coal[s].at <= coal[v].def
    ensures Canon(coal, v, seen) == Canon(coal, v)
    decreases if v in coal then |p| - coal[v].at else -1
  {
    if v in coal {
      assert Accepted(p, v, coal[v]);
      var u := coal[v].target;
      if u in coal {
        NextLink(p, coal, v);
      }
      CanonUnseen(p, coal, u, seen + {v});
      CanonUnseen(p, coal, u, {} + {v});
    }
  }

  lemma CanonLink(p: seq<Cmd>, coal: Coalesced, t: Value)
    requires Linked(p, coal) && t in coal
    ensures Canon(coal, t) == Canon(coal, coal[t].target)
  {
    assert Accepted(p, t, coal[t]);
    if coal[t].target in coal {
      NextLink(p, coal, t);
    }
    CanonUnseen(p, coal, coal[t].target, {} + {t});
  }

  lemma {:induction false} CanonIsLast(p: seq<Cmd>, coal: Coalesced, t: Value)
    requires Linked(p, coal)
    ensures Canon(coal, t) !in coal
    decreases if t in coal then |p| - coal[t].at else -1
  {
    if t in coal {
      assert Accepted(p, t, coal[t]);
      CanonLink(p, coal, t);
      if coal[t].target in coal {
        NextLink(p, coal, t);
      }
      CanonIsLast(p, coal, coal[t].target);
    }
  }

  /** An accepted copy becomes a copy of a value onto itself: it needs no code. */
  lemma CopyDisappears(p: seq<Cmd>, coal: Coalesced, t: Value)
    requires Safe(p, coal) && t in coal
    ensures Accepted(p, t, coal[t])
    ensures Rename(coal, p)[coal[t].at] == Set(Temp(Canon(coal, t)), Temp(Canon(coal, t)))
  {
    SafeIsLinked(p, coal);
    CanonLink(p, coal, t);
    assert LinkSafe(p, coal, t);
    assert p[coal[t].at] == Set(Temp(coal[t].target), Temp(t));
  }

  /** Temporaries ending in one home never occupy it at the same time. */
  lemma {:induction false} WindowsApart(p: seq<Cmd>, coal: Coalesced, t: Value, u: Value, i: nat)
    requires Safe(p, coal) && t in coal && u in coal && t != u && Canon(coal, t) == Canon(coal, u)
    ensures !(coal[t].def <= i < coal[t].at && coal[u].def <= i < coal[u].at)
    decreases 2 * |p| - coal[t].at - coal[u].at
  {
    assert LinkSafe(p, coal, t) && LinkSafe(p, coal, u);
    if coal[t].def <= i < coal[t].at && coal[u].def <= i < coal[u].at {
      if coal[t].at < coal[u].at {
        LaterWindow(p, coal, t, u, i);
      } else if coal[u].at < coal[t].at {
        LaterWindow(p, coal, u, t, i);
      } else {
        OneCopy(p, t, u, coal[t], coal[u]);
      }
    }
  }

  /** Different temporaries are copied by different commands. */
  lemma OneCopy(p: seq<Cmd>, t: Value, u: Value, c: Copy, d: Copy)
    requires Accepted(p, t, c) && Accepted(p, u, d) && t != u
    ensures c.at != d.at
  {
  }

  /** The case where `t`'s copy comes first: follow `t`'s chain. */
  lemma {:induction false} LaterWindow(p: seq<Cmd>, coal: Coalesced, t: Value, u: Value, i: nat)
    requires Safe(p, coal) && t in coal && u in coal && t != u && Canon(coal, t) == Canon(coal, u)
    requires coal[t].def <= i < coal[t].at && coal[u].def <= i
    ensures coal[t].at >= coal[u].at
    decreases 2 * |p| - coal[t].at - coal[u].at, 1
  {
    assert LinkSafe(p, coal, t) && LinkSafe(p, coal, u);
    var k, next := coal[t].at, coal[t].target;
    SafeIsLinked(p, coal);
    if k < coal[u].at {
      CanonLink(p, coal, t);
      assert Temp(next) in Outputs(p[k]);
      assert next != Canon(coal, u);
      NextLink(p, coal, t);
      WindowsApart(p, coal, next, u, k);
    }
  }

  // ---- what the two runs share ----

  /** Inside its window a temporary occupies the home it ends up in. */
  predicate Held(coal: Coalesced, i: nat, t: Value)
    requires t in coal
  {
    coal[t].def < i <= coal[t].at
  }

  /** At command `i` the renamed run's `Canon(v)` must hold `v`. */
  ghost predicate Current(coal: Coalesced, i: nat, v: Value) {
    if v in coal then Held(coal, i, v)
    else forall t :: t in coal && Canon(coal, t) == v ==> !Held(coal, i, t)
  }

  /** A command that reads a coalesced temporary is its copy. */
  lemma ReadByItsCopy(p: seq<Cmd>, t: Value, c: Copy, i: nat)
    requires Accepted(p, t, c) && i < |p| && Temp(t) in Inputs(p[i])
    ensures i == c.at
  {
    assert Inputs(p[c.at]) == [Temp(t)];
    assert t in Uses(p[i]) && t in Uses(p[c.at]);
    OneUse(p, t, i, c.at);
  }

  /** Nothing reads `x` inside a window clear of it. */
  lemma TargetUnread(p: seq<Cmd>, t: Value, c: Copy, i: nat, x: Value)
    requires Accepted(p, t, c) && i < |p| && Temp(x) in Inputs(p[i]) && t != x
    requires ClearBehind(p, c, x)
    ensures !(c.def < i <= c.at)
  {
    assert Inputs(p[c.at]) == [Temp(t)];
    if c.def < i < c.at {
      assert Touches(p[i], x);
    }
  }

  /** Whatever a command reads is current. */
  lemma InputsCurrent(p: seq<Cmd>, coal: Coalesced, i: nat, v: Value)
    requires Safe(p, coal) && i < |p| && Temp(v) in Inputs(p[i])
    ensures Current(coal, i, v)
  {
    if v in coal {
      assert LinkSafe(p, coal, v);
      ReadByItsCopy(p, v, coal[v], i);
    } else {
      forall t | t in coal && Canon(coal, t) == v
        ensures !Held(coal, i, t)
      {
        assert LinkSafe(p, coal, t);
        TargetUnread(p, t, coal[t], i, v);
      }
    }
  }

  /** A command's writes are all that make a value current after it. */
  lemma CurrentAfter(p: seq<Cmd>, coal: Coalesced, i: nat, v: Value)
    requires Safe(p, coal) && i < |p| && Current(coal, i + 1, v)
    ensures v in Defs(p[i]) || Current(coal, i, v)
  {
    if v in coal {
      assert LinkSafe(p, coal, v);
    } else {
      if t :| t in coal && Canon(coal, t) == v && Held(coal, i, t) {
        assert LinkSafe(p, coal, t);
        assert coal[t].at == i;
        SafeIsLinked(p, coal);
        var u := coal[t].target;
        CanonLink(p, coal, t);
        if u in coal {
          NextLink(p, coal, t);
        }
      }
    }
  }

  /** Of two names a command writes or leaves current, no two share a canonical name. */
  lemma NoCollision(p: seq<Cmd>, coal: Coalesced, i: nat, v: Value, w: Value)
    requires Safe(p, coal) && i < |p|
    requires v in Defs(p[i]) && (w in Defs(p[i]) || Current(coal, i + 1, w)) && v != w
    ensures Canon(coal, v) != Canon(coal, w)
  {
    if v in coal {
      DefinedHere(p, coal, i, v);
      assert Held(coal, i + 1, v);
      if w in coal {
        if w in Defs(p[i]) {
          DefinedHere(p, coal, i, w);
        }
        if Canon(coal, v) == Canon(coal, w) {
          WindowsApart(p, coal, v, w, i);
        }
      } else if w in Defs(p[i]) {
        ClearOf(p, coal, i, v, w);
      }
    } else if w in coal {
      if w in Defs(p[i]) {
        DefinedHere(p, coal, i, w);
      }
      ClearOf(p, coal, i, w, v);
    }
  }

  lemma DefinedHere(p: seq<Cmd>, coal: Coalesced, i: nat, v: Value)
    requires Safe(p, coal) && i < |p| && v in coal && v in Defs(p[i])
    ensures coal[v].def == i < coal[v].at
  {
    assert LinkSafe(p, coal, v);
    OneDef(p, v, i, coal[v].def);
  }

  lemma ClearOf(p: seq<Cmd>, coal: Coalesced, i: nat, t: Value, x: Value)
    requires Safe(p, coal) && i < |p| && t in coal && coal[t].def <= i < coal[t].at && x in Defs(p[i])
    ensures Canon(coal, t) != x
  {
    assert LinkSafe(p, coal, t);
    assert Temp(x) in Outputs(p[i]);
    assert i > coal[t].def ==> !Touches(p[i], Canon(coal, t));
  }
}
