/** Basic blocks and edges of a command list. */
module ControlFlow {
  import opened IL

  datatype Cfg = Cfg(blocks: seq<(nat, nat)>, blockOf: seq<nat>, succ: seq<seq<nat>>)

  predicate EndsBlock(c: Cmd) { IsJump(c) || c.Return? }

  /** A block starts at the first command, at a label, and behind a jump or return. */
  predicate Leader(p: seq<Cmd>, i: nat) {
    i < |p| && (i == 0 || p[i].Label? || EndsBlock(p[i - 1]))
  }

  method FindLeaders(p: seq<Cmd>) returns (leaders: set<nat>)
    ensures forall i: nat :: i in leaders <==> Leader(p, i)
  {
    leaders := if p == [] then {} else {0};
    for i := 0 to |p|
      invariant forall j: nat :: j in leaders ==> Leader(p, j)
      invariant p != [] ==> 0 in leaders
      invariant forall j: nat :: j < |p| && p[j].Label? && j < i ==> j in leaders
      invariant forall j: nat :: j < i && EndsBlock(p[j]) && j + 1 < |p| ==> j + 1 in leaders
    {
      if p[i].Label? {
        leaders := leaders + {i};
      }
      if EndsBlock(p[i]) && i + 1 < |p| {
        leaders := leaders + {i + 1};
      }
      if IsJump(p[i]) {
        var t := TargetIn(p, p[i].target);
        leaders := leaders + {if t.Some? then t.value else 0};
      }
    }
    forall j: nat | Leader(p, j)
      ensures j in leaders
    {
      if j > 0 && !p[j].Label? {
        assert EndsBlock(p[j - 1]) && (j - 1) + 1 < |p|;
      }
    }
  }

  ghost predicate BlockAt(p: seq<Cmd>, blocks: seq<(nat, nat)>, k: nat)
    requires k < |blocks|
  {
    var (s, e) := blocks[k];
    && s < e <= |p| && Leader(p, s) && (forall i: nat :: s < i < e ==> !Leader(p, i))
    && (if k == 0 then s == 0 else s == blocks[k - 1].1)
  }

  /** The blocks cover `..hi` without gaps, each begins at a leader and holds no other. */
  ghost predicate Blocks(p: seq<Cmd>, blocks: seq<(nat, nat)>, hi: nat) {
    && (forall k: nat :: k < |blocks| ==> BlockAt(p, blocks, k))
    && (if blocks == [] then hi == 0 else blocks[|blocks| - 1].1 == hi)
  }

  ghost predicate InBlock(blocks: seq<(nat, nat)>, b: nat, i: nat) {
    b < |blocks| && blocks[b].0 <= i < blocks[b].1
  }

  method MakeBlocks(p: seq<Cmd>, leaders: set<nat>) returns (blocks: seq<(nat, nat)>, blockOf: seq<nat>)
    requires forall i: nat :: i in leaders <==> Leader(p, i)
    ensures Blocks(p, blocks, |p|) && |blockOf| == |p|
    ensures forall i: nat :: i < |p| ==> InBlock(blocks, blockOf[i], i)
  {
    blocks, blockOf := [], [];
    var s := 0;
    while s < |p|
      invariant s <= |p| && Blocks(p, blocks, s) && |blockOf| == s && (s < |p| ==> s in leaders)
      invariant forall i: nat :: i < s ==> InBlock(blocks, blockOf[i], i)
    {
      var e := s + 1;
      while e < |p| && e !in leaders
        invariant s < e <= |p| && forall i: nat :: s < i < e ==> i !in leaders
      {
        e := e + 1;
      }
      var b := |blocks|;
      var longer := blocks + [(s, e)];
      var of := blockOf + seq(e - s, _ => b);
      forall k: nat | k < |longer|
        ensures BlockAt(p, longer, k)
      {
        if k < b {
          assert BlockAt(p, blocks, k);
        }
      }
      forall i: nat | i < e
        ensures InBlock(longer, of[i], i)
      {
        if i < s {
          assert InBlock(blocks, blockOf[i], i);
        }
      }
      blocks, blockOf, s := longer, of, e;
    }
  }

  /** `t` is a block that the last command of block `b` can lead to. */
  ghost predicate LeadsTo(p: seq<Cmd>, blocks: seq<(nat, nat)>, blockOf: seq<nat>, b: nat, t: nat)
    requires b < |blocks| && 0 < blocks[b].1 <= |p| == |blockOf|
  {
    exists s :: s in Succ(p, blocks[b].1 - 1) && blockOf[s] == t
  }

  ghost predicate EdgesAre(p: seq<Cmd>, blocks: seq<(nat, nat)>, blockOf: seq<nat>, b: nat, to: seq<nat>) {
    && b < |blocks| && 0 < blocks[b].1 <= |p| == |blockOf|
    && forall t :: t in to <==> LeadsTo(p, blocks, blockOf, b, t)
  }

  method MakeEdges(p: seq<Cmd>, blocks: seq<(nat, nat)>, blockOf: seq<nat>) returns (succ: seq<seq<nat>>)
    requires Blocks(p, blocks, |p|) && |blockOf| == |p|
    ensures |succ| == |blocks|
    ensures forall b: nat :: b < |blocks| ==> EdgesAre(p, blocks, blockOf, b, succ[b])
  {
    succ := [];
    for b := 0 to |blocks|
      invariant |succ| == b
      invariant forall c: nat :: c < b ==> EdgesAre(p, blocks, blockOf, c, succ[c])
    {
      assert BlockAt(p, blocks, b);
      var to := EdgesOf(p, blocks, blockOf, b);
      succ := succ + [to];
    }
  }

  /** The ids of the blocks that block `b` leads to. */
  method EdgesOf(p: seq<Cmd>, blocks: seq<(nat, nat)>, blockOf: seq<nat>, b: nat) returns (to: seq<nat>)
    requires b < |blocks| && 0 < blocks[b].1 <= |p| == |blockOf|
    ensures EdgesAre(p, blocks, blockOf, b, to)
  {
    var e := blocks[b].1;
    var last := p[e - 1];
    to := [];
    if last.Return? {
    } else if last.Jump? {
      var t := TargetIn(p, last.target);
      if t.Some? {
        to := [blockOf[t.value]];
      }
    } else {
      if IsJump(last) {
        var t := TargetIn(p, last.target);
        if t.Some? {
          to := [blockOf[t.value]];
        }
      }
      if e < |p| {
        to := to + [blockOf[e]];
      }
    }
    EdgesRight(p, blockOf, e - 1, to);
  }

  /** The block ids collected for a command are those of its successors. */
  lemma EdgesRight(p: seq<Cmd>, blockOf: seq<nat>, i: nat, to: seq<nat>)
    requires i < |p| == |blockOf|
    requires to == (if p[i].Return? then []
                    else if p[i].Jump? then (if TargetIn(p, p[i].target).Some? then [blockOf[TargetIn(p, p[i].target).value]] else [])
                    else (if IsJump(p[i]) && TargetIn(p, p[i].target).Some? then [blockOf[TargetIn(p, p[i].target).value]] else [])
                         + (if i + 1 < |p| then [blockOf[i + 1]] else []))
    ensures forall t :: t in to <==> exists s :: s in Succ(p, i) && blockOf[s] == t
  {
    if i + 1 < |p| {
      assert i + 1 in Fallthrough(p, i);
    }
    if IsJump(p[i]) && TargetIn(p, p[i].target).Some? {
      assert TargetIn(p, p[i].target).value in Branch(p, p[i].target);
    }
    forall t | t in to
      ensures exists s :: s in Succ(p, i) && blockOf[s] == t
    {
      if IsJump(p[i]) && TargetIn(p, p[i].target).Some? && t == blockOf[TargetIn(p, p[i].target).value] {
        assert TargetIn(p, p[i].target).value in Succ(p, i);
      } else {
        assert i + 1 in Succ(p, i);
      }
    }
  }

  ghost predicate IsCfg(p: seq<Cmd>, g: Cfg) {
    && Blocks(p, g.blocks, |p|) && |g.blockOf| == |p| && |g.succ| == |g.blocks|
    && (forall i: nat :: i < |p| ==> InBlock(g.blocks, g.blockOf[i], i))
    && (forall b: nat :: b < |g.blocks| ==> EdgesAre(p, g.blocks, g.blockOf, b, g.succ[b]))
  }

  method BuildCfg(p: seq<Cmd>) returns (g: Cfg)
    ensures IsCfg(p, g)
  {
    var leaders := FindLeaders(p);
    var blocks, blockOf := MakeBlocks(p, leaders);
    var succ := MakeEdges(p, blocks, blockOf);
    g := Cfg(blocks, blockOf, succ);
  }

  lemma {:induction false} LaterBlock(p: seq<Cmd>, blocks: seq<(nat, nat)>, a: nat, b: nat)
    requires a < b < |blocks| && forall k: nat :: k < |blocks| ==> BlockAt(p, blocks, k)
    ensures blocks[a].1 <= blocks[b].0
    decreases b
  {
    assert BlockAt(p, blocks, b);
    if a < b - 1 {
      LaterBlock(p, blocks, a, b - 1);
      assert BlockAt(p, blocks, b - 1);
    }
  }

  /** A command belongs to one block. */
  lemma OneBlock(p: seq<Cmd>, g: Cfg, b: nat, i: nat)
    requires IsCfg(p, g) && InBlock(g.blocks, b, i) && i < |p|
    ensures g.blockOf[i] == b
  {
    var c := g.blockOf[i];
    assert InBlock(g.blocks, c, i);
    if b < c {
      LaterBlock(p, g.blocks, b, c);
    } else if c < b {
      LaterBlock(p, g.blocks, c, b);
    }
  }

  /** Every control-flow step stays in its block or follows an edge to the start of one. */
  lemma StepsFollowEdges(p: seq<Cmd>, g: Cfg, i: nat, s: nat)
    requires IsCfg(p, g) && i < |p| && s in Succ(p, i)
    ensures InBlock(g.blocks, g.blockOf[i], i) && InBlock(g.blocks, g.blockOf[s], s)
    ensures (s == i + 1 && g.blockOf[s] == g.blockOf[i] && s < g.blocks[g.blockOf[i]].1)
            || (i + 1 == g.blocks[g.blockOf[i]].1 && s == g.blocks[g.blockOf[s]].0 && g.blockOf[s] in g.succ[g.blockOf[i]])
  {
    var b, c := g.blockOf[i], g.blockOf[s];
    assert BlockAt(p, g.blocks, b) && BlockAt(p, g.blocks, c);
    if i + 1 < g.blocks[b].1 {
      assert !Leader(p, i + 1);
      OneBlock(p, g, b, i + 1);
    } else {
      assert EdgesAre(p, g.blocks, g.blockOf, b, g.succ[b]) && LeadsTo(p, g.blocks, g.blockOf, b, c);
      LandsOnLeader(p, i, s);
      if s == i + 1 {
        NextBlockStarts(p, g, b, s);
      }
    }
  }

  lemma LandsOnLeader(p: seq<Cmd>, i: nat, s: nat)
    requires i < |p| && s in Succ(p, i)
    ensures s == i + 1 || Leader(p, s)
  {
  }

  lemma NextBlockStarts(p: seq<Cmd>, g: Cfg, b: nat, s: nat)
    requires IsCfg(p, g) && b < |g.blocks| && g.blocks[b].1 == s < |p|
    ensures g.blocks[g.blockOf[s]].0 == s
  {
    var c := g.blockOf[s];
    assert InBlock(g.blocks, c, s);
    assert BlockAt(p, g.blocks, c) && BlockAt(p, g.blocks, b);
    if c < b {
      LaterBlock(p, g.blocks, c, b);
    } else if b + 1 < |g.blocks| {
      assert BlockAt(p, g.blocks, b + 1);
      OneBlock(p, g, b + 1, s);
    }
  }
}
