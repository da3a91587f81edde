/** Tracing an address computed in a loop body back to one induction variable. */
module AddressTrace {
  import opened IL

  /** What the pass tabulates about a loop body: where each value is defined (the
      last time), and the basic induction variables with their increments. */
  datatype Tables = Tables(defOf: map<Value, nat>, ivs: map<Value, int>)

  ghost predicate Fits(p: seq<Cmd>, t: Tables) {
    forall v :: v in t.defOf ==> t.defOf[v] < |p|
  }

  /** How a command computes its output, as far as tracing is concerned. */
  datatype Shape = CopyOf(y: Operand) | Sum(minus: bool, y: Operand, z: Operand) | Product(y: Operand, k: int) | Untraceable

  function ShapeOf(c: Cmd): Shape {
    if c.Set? && c.out.Temp? then CopyOf(c.arg)
    else if c.Op? && |c.ins| == 2 && |c.outs| == 1 && c.outs[0].Temp? then
      if c.code == Add then Sum(false, c.ins[0], c.ins[1])
      else if c.code == Subtr then Sum(true, c.ins[0], c.ins[1])
      else if c.code == Mult && c.ins[1].Lit? then Product(c.ins[0], c.ins[1].n)
      else if c.code == Mult && c.ins[0].Lit? then Product(c.ins[1], c.ins[0].n)
      else Untraceable
    else Untraceable
  }

  /** Tracing stops at induction variables and at operands the body does not define. */
  predicate IsLeaf(t: Tables, x: Operand) {
    !x.Temp? || x.v !in t.defOf || x.v in t.ivs
  }

  type Stride = Option<(Operand, int)>

  function Combine(minus: bool, a: Stride, b: Stride): Stride {
    if a.None? || b.None? || (a.value.1 != 0 && b.value.1 != 0) then None
    else
      var sb := if minus then -b.value.1 else b.value.1;
      if a.value.1 != 0 then a
      else if sb != 0 then Some((b.value.0, sb))
      else Some((a.value.0, 0))
  }

  function Scale(a: Stride, k: int): Stride {
    if a.None? || a.value.1 == 0 then None else Some((a.value.0, a.value.1 * k))
  }

  const MAX_DEPTH := 12

  /** The induction variable and the factor by which `x` follows it; factor 0
      means loop-invariant. */
  function Trace(p: seq<Cmd>, t: Tables, x: Operand, depth: nat): Stride
    requires Fits(p, t)
    decreases MAX_DEPTH + 1 - depth, p
  {
    if depth > MAX_DEPTH then None
    else if IsLeaf(t, x) then
      if x.Temp? && x.v in t.ivs then Some((x, 1)) else Some((x, 0))
    else
      match ShapeOf(p[t.defOf[x.v]])
      case CopyOf(y) => Trace(p, t, y, depth + 1)
      case Sum(minus, y, z) => Combine(minus, Trace(p, t, y, depth + 1), Trace(p, t, z, depth + 1))
      case Product(y, k) => Scale(Trace(p, t, y, depth + 1), k)
      case Untraceable => None
  }

  /** The commands visited on the way. */
  function Chain(p: seq<Cmd>, t: Tables, x: Operand, depth: nat): set<nat>
    requires Fits(p, t)
    decreases MAX_DEPTH + 1 - depth, p
  {
    if depth > MAX_DEPTH || IsLeaf(t, x) then {}
    else
      {t.defOf[x.v]} +
      match ShapeOf(p[t.defOf[x.v]])
      case CopyOf(y) => Chain(p, t, y, depth + 1)
      case Sum(_, y, z) => Chain(p, t, y, depth + 1) + Chain(p, t, z, depth + 1)
      case Product(y, _) => Chain(p, t, y, depth + 1)
      case Untraceable => {}
  }

  function Leaf(env: Env, x: Operand): int {
    match x
    case Temp(v) => Get(env, v)
    case Lit(n) => n
    case Pinned(_) => 0
  }

  /** The value the traced expression has when its leaves are read from `env`. */
  function ChainVal(p: seq<Cmd>, t: Tables, env: Env, x: Operand, depth: nat): int
    requires Fits(p, t)
    decreases MAX_DEPTH + 1 - depth, p
  {
    if depth > MAX_DEPTH then 0
    else if IsLeaf(t, x) then Leaf(env, x)
    else
      match ShapeOf(p[t.defOf[x.v]])
      case CopyOf(y) => ChainVal(p, t, env, y, depth + 1)
      case Sum(minus, y, z) =>
        var (a, b) := (ChainVal(p, t, env, y, depth + 1), ChainVal(p, t, env, z, depth + 1));
        if minus then a - b else a + b
      case Product(y, k) => ChainVal(p, t, env, y, depth + 1) * k
      case Untraceable => 0
  }

  // ---- the trace is affine ----

  /** The two environments agree on everything the loop body does not define. */
  ghost predicate SameInvariants(t: Tables, e1: Env, e2: Env) {
    forall v :: v !in t.defOf ==> Get(e1, v) == Get(e2, v)
  }

  ghost predicate Follows(t: Tables, a: Stride, d: int, e1: Env, e2: Env) {
    a.Some? && d == a.value.1 * (Leaf(e2, a.value.0) - Leaf(e1, a.value.0))
    && (a.value.1 != 0 ==> a.value.0.Temp? && a.value.0.v in t.ivs)
  }

  lemma ScaleFollows(t: Tables, a: Stride, d: int, e1: Env, e2: Env, k: int)
    requires Follows(t, a, d, e1, e2) && Scale(a, k).Some?
    ensures Follows(t, Scale(a, k), d * k, e1, e2)
  {
    var s, delta := a.value.1, Leaf(e2, a.value.0) - Leaf(e1, a.value.0);
    assert s * delta * k == s * k * delta;
  }

  lemma CombineFollows(t: Tables, a: Stride, b: Stride, da: int, db: int, e1: Env, e2: Env, minus: bool)
    requires Follows(t, a, da, e1, e2) && Follows(t, b, db, e1, e2) && Combine(minus, a, b).Some?
    ensures Follows(t, Combine(minus, a, b), if minus then da - db else da + db, e1, e2)
  {
    var s, delta := b.value.1, Leaf(e2, b.value.0) - Leaf(e1, b.value.0);
    assert (-s) * delta == -(s * delta);
  }

  ghost function Change(p: seq<Cmd>, t: Tables, e1: Env, e2: Env, x: Operand, depth: nat): int
    requires Fits(p, t)
  {
    ChainVal(p, t, e2, x, depth) - ChainVal(p, t, e1, x, depth)
  }

  lemma {:induction false} TraceFollows(p: seq<Cmd>, t: Tables, e1: Env, e2: Env, x: Operand, depth: nat)
    requires Fits(p, t) && Trace(p, t, x, depth).Some? && SameInvariants(t, e1, e2)
    ensures Follows(t, Trace(p, t, x, depth), Change(p, t, e1, e2, x, depth), e1, e2)
    decreases MAX_DEPTH + 1 - depth
  {
    if !IsLeaf(t, x) {
      match ShapeOf(p[t.defOf[x.v]]) {
        case CopyOf(y) =>
          TraceFollows(p, t, e1, e2, y, depth + 1);
        case Sum(minus, y, z) =>
          TraceFollows(p, t, e1, e2, y, depth + 1);
          TraceFollows(p, t, e1, e2, z, depth + 1);
          CombineFollows(t, Trace(p, t, y, depth + 1), Trace(p, t, z, depth + 1),
                         Change(p, t, e1, e2, y, depth + 1), Change(p, t, e1, e2, z, depth + 1), e1, e2, minus);
        case Product(y, k) =>
          TraceFollows(p, t, e1, e2, y, depth + 1);
          ScaleFollows(t, Trace(p, t, y, depth + 1), Change(p, t, e1, e2, y, depth + 1), e1, e2, k);
          ProductChange(ChainVal(p, t, e1, y, depth + 1), ChainVal(p, t, e2, y, depth + 1), k);
        case Untraceable =>
      }
    }
  }

  lemma ProductChange(a: int, b: int, k: int)
    ensures (b - a) * k == b * k - a * k
  {
  }

  /** Whenever the trace succeeds, moving from one environment to another that
      agrees on the loop's invariants changes the traced value by exactly the
      factor times the change of the induction variable. */
  lemma TraceIsAffine(p: seq<Cmd>, t: Tables, e1: Env, e2: Env, x: Operand)
    requires Fits(p, t) && Trace(p, t, x, 0).Some? && SameInvariants(t, e1, e2)
    ensures Change(p, t, e1, e2, x, 0) ==
            Trace(p, t, x, 0).value.1 * (Leaf(e2, Trace(p, t, x, 0).value.0) - Leaf(e1, Trace(p, t, x, 0).value.0))
    ensures Trace(p, t, x, 0).value.1 != 0 ==> Trace(p, t, x, 0).value.0.Temp? && Trace(p, t, x, 0).value.0.v in t.ivs
  {
    TraceFollows(p, t, e1, e2, x, 0);
  }

  // ---- everything affine is traced ----

  /** What can be read off a chain of at most `n` commands: an induction variable
      follows itself once, anything the body does not define not at all; a copy follows
      what it copies; a sum or difference of which at most one side varies follows that
      side, turned round if it is subtracted; a product of something varying with a
      literal follows it that many times over. */
  ghost predicate Derivable(p: seq<Cmd>, t: Tables, x: Operand, iv: Operand, k: int, n: nat)
    requires Fits(p, t)
    decreases n, 0
  {
    if IsLeaf(t, x) then iv == x && k == (if x.Temp? && x.v in t.ivs then 1 else 0)
    else if n == 0 then false
    else
      match ShapeOf(p[t.defOf[x.v]])
      case CopyOf(y) => Derivable(p, t, y, iv, k, n - 1)
      case Sum(minus, y, z) => SumDerives(p, t, minus, y, z, iv, k, n - 1)
      case Product(y, c) => exists kb :: Derivable(p, t, y, iv, kb, n - 1) && kb != 0 && k == kb * c
      case Untraceable => false
  }

  ghost predicate SumOf(minus: bool, a: Operand, ka: int, b: Operand, kb: int, iv: Operand, k: int) {
    || (kb == 0 && iv == a && k == ka)
    || (ka == 0 && kb != 0 && iv == b && k == if minus then -kb else kb)
  }

  lemma SumTraces(minus: bool, a: Operand, ka: int, b: Operand, kb: int, iv: Operand, k: int)
    requires SumOf(minus, a, ka, b, kb, iv, k)
    ensures Combine(minus, Some((a, ka)), Some((b, kb))) == Some((iv, k))
  {
  }

  /** What a sum or difference adds up to. */
  ghost predicate SumDerives(p: seq<Cmd>, t: Tables, minus: bool, y: Operand, z: Operand, iv: Operand, k: int, n: nat)
    requires Fits(p, t)
    decreases n, 1
  {
    exists a, ka, b, kb :: Derivable(p, t, y, a, ka, n) && Derivable(p, t, z, b, kb, n) && SumOf(minus, a, ka, b, kb, iv, k)
  }

  /** The trace finds all of it, through up to twelve commands. */
  lemma {:induction false} TraceIsComplete(p: seq<Cmd>, t: Tables, x: Operand, iv: Operand, k: int, n: nat, depth: nat)
    requires Fits(p, t) && Derivable(p, t, x, iv, k, n) && depth + n <= 12
    ensures Trace(p, t, x, depth) == Some((iv, k))
    decreases n, 0
  {
    if !IsLeaf(t, x) {
      match ShapeOf(p[t.defOf[x.v]]) {
        case CopyOf(y) => TraceIsComplete(p, t, y, iv, k, n - 1, depth + 1);
        case Sum(minus, y, z) => SumIsComplete(p, t, minus, y, z, iv, k, n - 1, depth + 1);
        case Product(y, c) =>
          var kb :| Derivable(p, t, y, iv, kb, n - 1) && kb != 0 && k == kb * c;
          TraceIsComplete(p, t, y, iv, kb, n - 1, depth + 1);
        case Untraceable =>
      }
    }
  }

  lemma {:induction false} SumIsComplete(p: seq<Cmd>, t: Tables, minus: bool, y: Operand, z: Operand, iv: Operand, k: int, n: nat, depth: nat)
    requires Fits(p, t) && SumDerives(p, t, minus, y, z, iv, k, n) && depth + n <= 12
    ensures Combine(minus, Trace(p, t, y, depth), Trace(p, t, z, depth)) == Some((iv, k))
    decreases n, 1
  {
    var a, ka, b, kb :| Derivable(p, t, y, a, ka, n) && Derivable(p, t, z, b, kb, n) && SumOf(minus, a, ka, b, kb, iv, k);
    TraceIsComplete(p, t, y, a, ka, n, depth);
    TraceIsComplete(p, t, z, b, kb, n, depth);
    SumTraces(minus, a, ka, b, kb, iv, k);
  }

  // ---- the depth bound only cuts off ----

  /** A trace that succeeds within the depth bound is the same when started shallower. */
  lemma {:induction false} TraceShallower(p: seq<Cmd>, t: Tables, x: Operand, depth: nat, less: nat)
    requires Fits(p, t) && less <= depth && Trace(p, t, x, depth).Some?
    ensures Trace(p, t, x, less) == Trace(p, t, x, depth)
    ensures Chain(p, t, x, less) == Chain(p, t, x, depth)
    decreases MAX_DEPTH + 1 - depth
  {
    if !IsLeaf(t, x) {
      match ShapeOf(p[t.defOf[x.v]]) {
        case CopyOf(y) => TraceShallower(p, t, y, depth + 1, less + 1);
        case Sum(_, y, z) =>
          TraceShallower(p, t, y, depth + 1, less + 1);
          TraceShallower(p, t, z, depth + 1, less + 1);
        case Product(y, _) => TraceShallower(p, t, y, depth + 1, less + 1);
        case Untraceable =>
      }
    }
  }

  lemma {:induction false} ValueShallower(p: seq<Cmd>, t: Tables, env: Env, x: Operand, depth: nat, less: nat)
    requires Fits(p, t) && less <= depth && Trace(p, t, x, depth).Some?
    ensures ChainVal(p, t, env, x, less) == ChainVal(p, t, env, x, depth)
    decreases MAX_DEPTH + 1 - depth
  {
    if !IsLeaf(t, x) {
      match ShapeOf(p[t.defOf[x.v]]) {
        case CopyOf(y) => ValueShallower(p, t, env, y, depth + 1, less + 1);
        case Sum(_, y, z) =>
          ValueShallower(p, t, env, y, depth + 1, less + 1);
          ValueShallower(p, t, env, z, depth + 1, less + 1);
        case Product(y, _) => ValueShallower(p, t, env, y, depth + 1, less + 1);
        case Untraceable =>
      }
    }
  }

  // ---- the commands of a chain ----

  /** Command `d` computes the chain temporary `o`, which itself traces. */
  ghost predicate Link(p: seq<Cmd>, t: Tables, d: nat, o: Value)
    requires Fits(p, t)
  {
    o in t.defOf && t.defOf[o] == d && o !in t.ivs && Trace(p, t, Temp(o), 0).Some?
  }

  /** An operand read by a link's command, apart from a literal factor. */
  ghost predicate Reads(s: Shape, y: Operand) {
    match s
    case CopyOf(a) => y == a
    case Sum(_, a, b) => y == a || y == b
    case Product(a, _) => y == a
    case Untraceable => false
  }

  /** What a link reads is a leaf or another link of the same chain. */
  lemma LinkReads(p: seq<Cmd>, t: Tables, d: nat, o: Value, y: Operand)
    requires Fits(p, t) && Link(p, t, d, o) && Reads(ShapeOf(p[d]), y)
    ensures Trace(p, t, y, 0).Some?
    ensures !IsLeaf(t, y) ==> Link(p, t, t.defOf[y.v], y.v)
    ensures Chain(p, t, y, 0) <= Chain(p, t, Temp(o), 0)
    ensures !IsLeaf(t, y) ==> t.defOf[y.v] in Chain(p, t, y, 0)
  {
    assert Trace(p, t, y, 1).Some?;
    TraceShallower(p, t, y, 1, 0);
  }

  lemma {:induction false} ChainIsLinks(p: seq<Cmd>, t: Tables, x: Operand, depth: nat, d: nat)
    requires Fits(p, t) && Trace(p, t, x, depth).Some? && d in Chain(p, t, x, depth)
    ensures exists o :: Link(p, t, d, o) && Chain(p, t, Temp(o), 0) <= Chain(p, t, x, depth)
    decreases MAX_DEPTH + 1 - depth
  {
    if d == t.defOf[x.v] {
      TraceShallower(p, t, x, depth, 0);
      assert Link(p, t, d, x.v);
    } else {
      match ShapeOf(p[t.defOf[x.v]]) {
        case CopyOf(y) => ChainIsLinks(p, t, y, depth + 1, d);
        case Sum(_, y, z) =>
          if d in Chain(p, t, y, depth + 1) {
            ChainIsLinks(p, t, y, depth + 1, d);
          } else {
            ChainIsLinks(p, t, z, depth + 1, d);
          }
        case Product(y, _) => ChainIsLinks(p, t, y, depth + 1, d);
        case Untraceable =>
      }
    }
  }

  ghost predicate IsDefOf(t: Tables, x: Operand, d: nat) {
    x.Temp? && x.v in t.defOf && d == t.defOf[x.v]
  }

  ghost predicate ReadBy(p: seq<Cmd>, t: Tables, d: nat, o: Value, e: nat, chain: set<nat>)
    requires Fits(p, t)
  {
    Link(p, t, d, o) && e in chain && e < |p| && Reads(ShapeOf(p[e]), Temp(o))
  }

  /** Every link but the last one computes something another link reads. */
  lemma {:induction false} ChainHasReader(p: seq<Cmd>, t: Tables, x: Operand, depth: nat, d: nat)
    requires Fits(p, t) && Trace(p, t, x, depth).Some? && d in Chain(p, t, x, depth) && !IsDefOf(t, x, d)
    ensures exists o, e :: ReadBy(p, t, d, o, e, Chain(p, t, x, depth))
    decreases MAX_DEPTH + 1 - depth, 1
  {
    match ShapeOf(p[t.defOf[x.v]]) {
      case CopyOf(y) => ReaderBelow(p, t, x, depth, d, y);
      case Sum(_, y, z) =>
        if d in Chain(p, t, y, depth + 1) {
          ReaderBelow(p, t, x, depth, d, y);
        } else {
          ReaderBelow(p, t, x, depth, d, z);
        }
      case Product(y, _) => ReaderBelow(p, t, x, depth, d, y);
      case Untraceable =>
    }
  }

  lemma {:induction false} ReaderBelow(p: seq<Cmd>, t: Tables, x: Operand, depth: nat, d: nat, y: Operand)
    requires Fits(p, t) && depth <= MAX_DEPTH && !IsLeaf(t, x) && Reads(ShapeOf(p[t.defOf[x.v]]), y)
    requires Trace(p, t, y, depth + 1).Some? && d in Chain(p, t, y, depth + 1)
    requires Chain(p, t, y, depth + 1) + {t.defOf[x.v]} <= Chain(p, t, x, depth)
    ensures exists o, e :: ReadBy(p, t, d, o, e, Chain(p, t, x, depth))
    decreases MAX_DEPTH + 1 - depth, 0
  {
    if IsDefOf(t, y, d) {
      TraceShallower(p, t, y, depth + 1, 0);
      assert ReadBy(p, t, d, y.v, t.defOf[x.v], Chain(p, t, x, depth));
    } else {
      ChainHasReader(p, t, y, depth + 1, d);
      var o, e :| ReadBy(p, t, d, o, e, Chain(p, t, y, depth + 1));
      assert ReadBy(p, t, d, o, e, Chain(p, t, x, depth));
    }
  }
}
