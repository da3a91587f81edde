/** Object-like macro expansion by rescanning with hide sets. */
module Macros {

  type Name = string

  /** A preprocessing token; identifiers remember the line they stand on. */
  datatype Token = Ident(name: Name, line: nat) | Number(n: nat) | Text(s: string)

  /** A token with the macro names that may not be expanded in it. */
  datatype Pp = Pp(tok: Token, hidden: set<Name>)

  /** Object-like definitions; bodies hold no `##`. */
  type Table = map<Name, seq<Token>>

  const LINE := "__LINE__"
  const FILE := "__FILE__"

  /** Names whose value depends on the position, unless the user defines them. */
  predicate Dynamic(macros: Table, p: Pp) {
    p.tok.Ident? && p.tok.name !in macros && (p.tok.name == LINE || p.tok.name == FILE)
  }

  function DynamicValue(file: string, p: Pp): Pp
    requires p.tok.Ident?
  {
    if p.tok.name == LINE then Pp(Number(p.tok.line), {}) else Pp(Text(file), {})
  }

  predicate Expandable(macros: Table, p: Pp) {
    p.tok.Ident? && p.tok.name in macros && p.tok.name !in p.hidden
  }

  /** The body of a macro, painted with the names it came through. */
  function Replacement(body: seq<Token>, hidden: set<Name>): (r: seq<Pp>)
    ensures |r| == |body|
  {
    seq(|body|, i requires 0 <= i < |body| => Pp(body[i], hidden))
  }

  // ---- the meaning: expansion as a tree ----

  function Left(macros: Table, hidden: set<Name>): nat { |macros.Keys - hidden| }

  lemma HidingLeavesLess(macros: Table, hidden: set<Name>, n: Name)
    requires n in macros && n !in hidden
    ensures Left(macros, hidden + {n}) < Left(macros, hidden)
  {
    var a, b := macros.Keys - hidden, macros.Keys - (hidden + {n});
    assert b == a - {n} && n in a;
  }

  /** What one token becomes: itself, or the expansion of each token of its macro's
      body inside which that name is hidden. */
  function Meaning(macros: Table, file: string, p: Pp): seq<Pp>
    decreases Left(macros, p.hidden), 0
  {
    if Dynamic(macros, p) then [DynamicValue(file, p)]
    else if !Expandable(macros, p) then [p]
    else
      HidingLeavesLess(macros, p.hidden, p.tok.name);
      BodyMeaning(macros, file, macros[p.tok.name], p.hidden + {p.tok.name})
  }

  function BodyMeaning(macros: Table, file: string, body: seq<Token>, hidden: set<Name>): seq<Pp>
    decreases Left(macros, hidden), 1, |body|
  {
    if body == [] then []
    else Meaning(macros, file, Pp(body[0], hidden)) + BodyMeaning(macros, file, body[1..], hidden)
  }

  function MeaningAll(macros: Table, file: string, ps: seq<Pp>): seq<Pp> {
    if ps == [] then [] else Meaning(macros, file, ps[0]) + MeaningAll(macros, file, ps[1..])
  }

  lemma {:induction false} BodyMeaningIsAll(macros: Table, file: string, body: seq<Token>, hidden: set<Name>)
    ensures BodyMeaning(macros, file, body, hidden) == MeaningAll(macros, file, Replacement(body, hidden))
    decreases |body|
  {
    if body != [] {
      BodyMeaningIsAll(macros, file, body[1..], hidden);
      assert Replacement(body, hidden)[1..] == Replacement(body[1..], hidden);
    }
  }

  lemma {:induction false} MeaningAppends(macros: Table, file: string, a: seq<Pp>, b: seq<Pp>)
    ensures MeaningAll(macros, file, a + b) == MeaningAll(macros, file, a) + MeaningAll(macros, file, b)
    decreases |a|
  {
    if a == [] {
      assert a + b == b;
    } else {
      assert (a + b)[1..] == a[1..] + b;
      MeaningAppends(macros, file, a[1..], b);
    }
  }

  // ---- why rescanning stops ----

  function Pow(b: nat, e: nat): (r: nat)
    ensures b > 0 ==> r > 0
  {
    if e == 0 then 1 else b * Pow(b, e - 1)
  }

  lemma {:induction false} PowGrows(b: nat, d: nat, e: nat)
    requires d <= e && b > 0
    ensures Pow(b, d) <= Pow(b, e)
    decreases e
  {
    if d < e {
      PowGrows(b, d, e - 1);
    }
  }

  ghost predicate BodiesWithin(macros: Table, bound: nat) {
    forall n :: n in macros ==> |macros[n]| <= bound
  }

  /** A token that can still be expanded through `k` names weighs more than `bound`
      tokens that can be expanded through `k - 1`. */
  function Weight(macros: Table, bound: nat, ps: seq<Pp>): nat {
    if ps == [] then 0 else Pow(bound + 1, Left(macros, ps[0].hidden)) + Weight(macros, bound, ps[1..])
  }

  lemma {:induction false} WeightAppends(macros: Table, bound: nat, a: seq<Pp>, b: seq<Pp>)
    ensures Weight(macros, bound, a + b) == Weight(macros, bound, a) + Weight(macros, bound, b)
    decreases |a|
  {
    if a == [] {
      assert a + b == b;
    } else {
      assert (a + b)[1..] == a[1..] + b;
      WeightAppends(macros, bound, a[1..], b);
    }
  }

  lemma {:induction false} ReplacementWeight(macros: Table, bound: nat, body: seq<Token>, hidden: set<Name>)
    ensures Weight(macros, bound, Replacement(body, hidden)) == |body| * Pow(bound + 1, Left(macros, hidden))
    decreases |body|
  {
    if body != [] {
      ReplacementWeight(macros, bound, body[1..], hidden);
      assert Replacement(body, hidden)[1..] == Replacement(body[1..], hidden);
      assert |body| * Pow(bound + 1, Left(macros, hidden)) == (|body| - 1) * Pow(bound + 1, Left(macros, hidden)) + Pow(bound + 1, Left(macros, hidden));
    }
  }

  /** Replacing a macro name by its body makes the rest of the input lighter. */
  lemma ReplacingIsLighter(macros: Table, bound: nat, p: Pp, rest: seq<Pp>)
    requires BodiesWithin(macros, bound) && Expandable(macros, p)
    ensures Weight(macros, bound, Replacement(macros[p.tok.name], p.hidden + {p.tok.name}) + rest) < Weight(macros, bound, [p] + rest)
  {
    var body, hidden := macros[p.tok.name], p.hidden + {p.tok.name};
    WeightAppends(macros, bound, Replacement(body, hidden), rest);
    ReplacementWeight(macros, bound, body, hidden);
    HidingLeavesLess(macros, p.hidden, p.tok.name);
    var e, d := Left(macros, p.hidden), Left(macros, hidden);
    PowGrows(bound + 1, d, e - 1);
    Product(|body|, bound, Pow(bound + 1, d), Pow(bound + 1, e - 1));
    assert ([p] + rest)[1..] == rest;
  }

  lemma Product(n: nat, bound: nat, x: nat, y: nat)
    requires n <= bound && x <= y && y > 0
    ensures n * x < (bound + 1) * y
  {
    assert n * x <= bound * x;
    assert bound * x <= bound * y;
    assert (bound + 1) * y == bound * y + y;
  }

  lemma BoundExists(macros: Table) returns (bound: nat)
    ensures BodiesWithin(macros, bound)
  {
    bound := 0;
    var todo := macros.Keys;
    while todo != {}
      invariant todo <= macros.Keys
      invariant forall n :: n in macros && n !in todo ==> |macros[n]| <= bound
    {
      var n :| n in todo;
      todo := todo - {n};
      if |macros[n]| > bound {
        bound := |macros[n]|;
      }
    }
  }

  // ---- the rescanning loop ----

  lemma Passed(macros: Table, file: string, bound: nat, p: Pp, tail: seq<Pp>)
    ensures MeaningAll(macros, file, [p] + tail) == Meaning(macros, file, p) + MeaningAll(macros, file, tail)
    ensures Weight(macros, bound, tail) < Weight(macros, bound, [p] + tail)
  {
    assert ([p] + tail)[1..] == tail;
  }

  lemma Replaced(macros: Table, file: string, bound: nat, p: Pp, tail: seq<Pp>)
    requires BodiesWithin(macros, bound) && Expandable(macros, p)
    ensures var repl := Replacement(macros[p.tok.name], p.hidden + {p.tok.name});
            && MeaningAll(macros, file, repl + tail) == MeaningAll(macros, file, [p] + tail)
            && Weight(macros, bound, repl + tail) < Weight(macros, bound, [p] + tail)
  {
    var body, hidden := macros[p.tok.name], p.hidden + {p.tok.name};
    ReplacingIsLighter(macros, bound, p, tail);
    BodyMeaningIsAll(macros, file, body, hidden);
    MeaningAppends(macros, file, Replacement(body, hidden), tail);
    Passed(macros, file, bound, p, tail);
  }

  /** Put the body of the macro named at `i` in its place. */
  method Splice(macros: Table, file: string, rest: seq<Pp>, i: nat, ghost bound: nat, ghost tokens: seq<Pp>, ghost out: seq<Pp>) returns (r: seq<Pp>)
    requires i < |rest| && BodiesWithin(macros, bound) && Expandable(macros, rest[i]) && Emitted(macros, file, tokens, out, rest[i..])
    ensures i <= |r| && r[..i] == rest[..i]
    ensures r[i..] == Replacement(macros[rest[i].tok.name], rest[i].hidden + {rest[i].tok.name}) + rest[i + 1..]
    ensures Emitted(macros, file, tokens, out, r[i..]) && Weight(macros, bound, r[i..]) < Weight(macros, bound, rest[i..])
  {
    var p := rest[i];
    var repl := Replacement(macros[p.tok.name], p.hidden + {p.tok.name});
    r := rest[..i] + repl + rest[i + 1..];
    assert r[i..] == repl + rest[i + 1..] && rest[i..] == [p] + rest[i + 1..];
    Replaced(macros, file, bound, p, rest[i + 1..]);
  }

  /** The loop's invariant: what has been emitted and what the rest will become. */
  ghost predicate Emitted(macros: Table, file: string, tokens: seq<Pp>, out: seq<Pp>, rest: seq<Pp>) {
    MeaningAll(macros, file, tokens) == out + MeaningAll(macros, file, rest)
  }

  /** What a token that is not replaced is emitted as. */
  function Plain(file: string, macros: Table, p: Pp): Pp {
    if Dynamic(macros, p) then DynamicValue(file, p) else p
  }

  lemma EmitFirst(macros: Table, file: string, bound: nat, tokens: seq<Pp>, out: seq<Pp>, p: Pp, q: Pp, tail: seq<Pp>)
    requires Emitted(macros, file, tokens, out, [p] + tail) && Meaning(macros, file, p) == [q]
    ensures Emitted(macros, file, tokens, out + [q], tail) && Weight(macros, bound, tail) < Weight(macros, bound, [p] + tail)
  {
    Passed(macros, file, bound, p, tail);
    assert out + ([q] + MeaningAll(macros, file, tail)) == (out + [q]) + MeaningAll(macros, file, tail);
  }

  lemma PlainMeaning(macros: Table, file: string, p: Pp)
    requires Dynamic(macros, p) || !Expandable(macros, p)
    ensures Meaning(macros, file, p) == [Plain(file, macros, p)]
  {
  }

  lemma EmitOne(macros: Table, file: string, bound: nat, tokens: seq<Pp>, out: seq<Pp>, rest: seq<Pp>, i: nat)
    requires i < |rest| && Emitted(macros, file, tokens, out, rest[i..]) && (Dynamic(macros, rest[i]) || !Expandable(macros, rest[i]))
    ensures Emitted(macros, file, tokens, out + [Plain(file, macros, rest[i])], rest[i + 1..])
    ensures Weight(macros, bound, rest[i + 1..]) < Weight(macros, bound, rest[i..])
  {
    assert rest[i..] == [rest[i]] + rest[i + 1..];
    PlainMeaning(macros, file, rest[i]);
    EmitFirst(macros, file, bound, tokens, out, rest[i], Plain(file, macros, rest[i]), rest[i + 1..]);
  }

  /** Expand a token sequence: splice each replacement in place and scan it again. */
  method Expand(macros: Table, file: string, tokens: seq<Pp>) returns (out: seq<Pp>)
    ensures out == MeaningAll(macros, file, tokens)
  {
    ghost var bound := BoundExists(macros);
    var rest, i := tokens, 0;
    out := [];
    while i < |rest|
      invariant i <= |rest|
      invariant Emitted(macros, file, tokens, out, rest[i..])
      decreases Weight(macros, bound, rest[i..])
    {
      if Dynamic(macros, rest[i]) || !Expandable(macros, rest[i]) {
        EmitOne(macros, file, bound, tokens, out, rest, i);
        out, i := out + [Plain(file, macros, rest[i])], i + 1;
      } else {
        rest := Splice(macros, file, rest, i, bound, tokens, out);
      }
    }
  }

  /** A line without hide sets, as read from the source. */
  method ExpandLine(macros: Table, file: string, line: seq<Token>) returns (out: seq<Token>)
    ensures |out| == |MeaningAll(macros, file, Replacement(line, {}))|
    ensures forall i :: 0 <= i < |out| ==> out[i] == MeaningAll(macros, file, Replacement(line, {}))[i].tok
  {
    var pps := Expand(macros, file, Replacement(line, {}));
    out := seq(|pps|, i requires 0 <= i < |pps| => pps[i].tok);
  }

  // ---- what is left ----

  /** No token of `ps` is a macro name that could still be expanded. */
  ghost predicate Settled(macros: Table, ps: seq<Pp>) {
    forall p :: p in ps ==> !Expandable(macros, p) && !Dynamic(macros, p)
  }

  lemma {:induction false} MeaningSettled(macros: Table, file: string, p: Pp)
    ensures Settled(macros, Meaning(macros, file, p))
    decreases Left(macros, p.hidden), 0
  {
    if !Dynamic(macros, p) && Expandable(macros, p) {
      HidingLeavesLess(macros, p.hidden, p.tok.name);
      BodySettled(macros, file, macros[p.tok.name], p.hidden + {p.tok.name});
    }
  }

  lemma {:induction false} BodySettled(macros: Table, file: string, body: seq<Token>, hidden: set<Name>)
    ensures Settled(macros, BodyMeaning(macros, file, body, hidden))
    decreases Left(macros, hidden), 1, |body|
  {
    if body != [] {
      MeaningSettled(macros, file, Pp(body[0], hidden));
      BodySettled(macros, file, body[1..], hidden);
    }
  }

  /** Every macro name left in the output is in its own token's hide set: it came
      out of that macro's expansion and may not be expanded again. */
  lemma {:induction false} OutputSettled(macros: Table, file: string, ps: seq<Pp>)
    ensures Settled(macros, MeaningAll(macros, file, ps))
    ensures forall p :: p in MeaningAll(macros, file, ps) && p.tok.Ident? && p.tok.name in macros ==> p.tok.name in p.hidden
    decreases |ps|
  {
    if ps != [] {
      MeaningSettled(macros, file, ps[0]);
      OutputSettled(macros, file, ps[1..]);
    }
  }

  /** Settled tokens mean themselves, so expanding twice is expanding once. */
  lemma {:induction false} SettledIsFixed(macros: Table, file: string, ps: seq<Pp>)
    requires Settled(macros, ps)
    ensures MeaningAll(macros, file, ps) == ps
    decreases |ps|
  {
    if ps != [] {
      assert ps[0] in ps;
      forall p | p in ps[1..]
        ensures p in ps
      {
      }
      SettledIsFixed(macros, file, ps[1..]);
    }
  }

  lemma ExpansionIsIdempotent(macros: Table, file: string, ps: seq<Pp>)
    ensures MeaningAll(macros, file, MeaningAll(macros, file, ps)) == MeaningAll(macros, file, ps)
  {
    OutputSettled(macros, file, ps);
    SettledIsFixed(macros, file, MeaningAll(macros, file, ps));
  }

  // ---- where a token came from ----

  /** `hidden` is reached from `from` by expanding macros one inside the other. */
  ghost predicate Nested(macros: Table, from: set<Name>, path: seq<Name>, hidden: set<Name>)
    decreases |path|
  {
    if path == [] then hidden == from
    else
      && path[0] in macros && path[0] !in from && Nested(macros, from + {path[0]}, path[1..], hidden)
      && (|path| > 1 ==> exists l: nat :: Ident(path[1], l) in macros[path[0]])
  }

  ghost predicate Chain(macros: Table, p: Pp, path: seq<Name>, q: Pp) {
    && path != [] && p.tok.Ident? && path[0] == p.tok.name && Nested(macros, p.hidden, path, q.hidden)
    && path[|path| - 1] in macros && q.tok in macros[path[|path| - 1]]
  }

  ghost predicate FromPosition(macros: Table, file: string, q: Pp) {
    exists d :: Dynamic(macros, d) && q == DynamicValue(file, d)
  }

  /** Each output token was written in the input, or in the body of the innermost of
      a chain of nested macros, and then its hide set is exactly that chain. */
  ghost predicate Origin(macros: Table, file: string, p: Pp, q: Pp) {
    q == p || FromPosition(macros, file, q) || exists path :: Chain(macros, p, path, q)
  }

  lemma {:induction false} MeaningOrigin(macros: Table, file: string, p: Pp, q: Pp)
    requires q in Meaning(macros, file, p)
    ensures Origin(macros, file, p, q)
    decreases Left(macros, p.hidden), 0
  {
    if Dynamic(macros, p) {
      assert q == DynamicValue(file, p);
    } else if Expandable(macros, p) {
      HidingLeavesLess(macros, p.hidden, p.tok.name);
      var hidden := p.hidden + {p.tok.name};
      var t := BodyOrigin(macros, file, macros[p.tok.name], hidden, q);
      if q == Pp(t, hidden) {
        assert Nested(macros, hidden, [], hidden);
        assert [p.tok.name][1..] == [];
        assert Chain(macros, p, [p.tok.name], q);
      } else if !FromPosition(macros, file, q) {
        var path :| Chain(macros, Pp(t, hidden), path, q);
        var longer := [p.tok.name] + path;
        assert longer[1..] == path && longer[1] == t.name && Ident(longer[1], t.line) in macros[longer[0]];
        assert longer[|longer| - 1] == path[|path| - 1];
        assert Chain(macros, p, longer, q);
      }
    }
  }

  lemma {:induction false} BodyOrigin(macros: Table, file: string, body: seq<Token>, hidden: set<Name>, q: Pp) returns (t: Token)
    requires q in BodyMeaning(macros, file, body, hidden)
    ensures t in body && Origin(macros, file, Pp(t, hidden), q)
    decreases Left(macros, hidden), 1, |body|
  {
    if q in Meaning(macros, file, Pp(body[0], hidden)) {
      t := body[0];
      MeaningOrigin(macros, file, Pp(t, hidden), q);
    } else {
      t := BodyOrigin(macros, file, body[1..], hidden, q);
    }
  }
}
