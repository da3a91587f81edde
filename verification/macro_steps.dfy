/** Macro expansion as rewriting: one step replaces one token, wherever it stands, and
    every way of stepping until nothing is left to do ends in what the loop computes. */
module MacroSteps {
  import opened Macros

  /** `qs` is `ps` with the macro name at `i` replaced by its body as written, every
      token of it hiding what that name hid and the name itself. */
  ghost predicate Replaces(macros: Table, ps: seq<Pp>, i: nat, qs: seq<Pp>) {
    && i < |ps| && ps[i].tok.Ident? && ps[i].tok.name in macros && ps[i].tok.name !in ps[i].hidden
    && var body := macros[ps[i].tok.name];
       && |qs| == |ps| - 1 + |body|
       && (forall j :: 0 <= j < i ==> qs[j] == ps[j])
       && (forall k :: 0 <= k < |body| ==> qs[i + k] == Pp(body[k], ps[i].hidden + {ps[i].tok.name}))
       && (forall j :: i < j < |ps| ==> qs[j - 1 + |body|] == ps[j])
  }

  /** `qs` is `ps` with the position-dependent name at `i` replaced by its value. */
  ghost predicate Locates(macros: Table, file: string, ps: seq<Pp>, i: nat, qs: seq<Pp>) {
    && i < |ps| && |qs| == |ps| && ps[i].tok.Ident? && ps[i].tok.name !in macros
    && ((ps[i].tok.name == "__LINE__" && qs[i] == Pp(Number(ps[i].tok.line), {}))
        || (ps[i].tok.name == "__FILE__" && qs[i] == Pp(Text(file), {})))
    && forall j :: 0 <= j < |ps| && j != i ==> qs[j] == ps[j]
  }

  ghost predicate StepAt(macros: Table, file: string, ps: seq<Pp>, i: nat, qs: seq<Pp>) {
    Replaces(macros, ps, i, qs) || Locates(macros, file, ps, i, qs)
  }

  ghost predicate Stuck(macros: Table, file: string, ps: seq<Pp>) {
    forall i: nat, qs :: !StepAt(macros, file, ps, i, qs)
  }

  /** `n` steps lead from `ps` to `qs`. */
  ghost predicate Reaches(macros: Table, file: string, ps: seq<Pp>, qs: seq<Pp>, n: nat)
    decreases n, 1
  {
    if n == 0 then ps == qs else exists i: nat, mid :: StepThen(macros, file, ps, i, mid, qs, n)
  }

  ghost predicate StepThen(macros: Table, file: string, ps: seq<Pp>, i: nat, mid: seq<Pp>, qs: seq<Pp>, n: nat)
    requires n > 0
    decreases n, 0
  {
    StepAt(macros, file, ps, i, mid) && Reaches(macros, file, mid, qs, n - 1)
  }

  // ---- steps keep the meaning ----

  lemma Around(ps: seq<Pp>, i: nat)
    requires i < |ps|
    ensures ps == ps[..i] + ([ps[i]] + ps[i + 1..])
  {
  }

  lemma ReplacedAround(macros: Table, ps: seq<Pp>, i: nat, qs: seq<Pp>)
    requires Replaces(macros, ps, i, qs)
    ensures qs == ps[..i] + (Replacement(macros[ps[i].tok.name], ps[i].hidden + {ps[i].tok.name}) + ps[i + 1..])
  {
    var body := macros[ps[i].tok.name];
    var r := ps[..i] + (Replacement(body, ps[i].hidden + {ps[i].tok.name}) + ps[i + 1..]);
    assert |r| == |qs|;
    forall j | 0 <= j < |qs|
      ensures qs[j] == r[j]
    {
      if i <= j < i + |body| {
        assert qs[i + (j - i)] == Pp(body[j - i], ps[i].hidden + {ps[i].tok.name});
      } else if j >= i + |body| {
        assert qs[(j + 1 - |body|) - 1 + |body|] == ps[j + 1 - |body|];
      }
    }
  }

  lemma LocatedAround(macros: Table, file: string, ps: seq<Pp>, i: nat, qs: seq<Pp>)
    requires Locates(macros, file, ps, i, qs)
    ensures Dynamic(macros, ps[i]) && qs[i] == DynamicValue(file, ps[i]) && qs == ps[..i] + ([qs[i]] + ps[i + 1..])
  {
  }

  /** A step anywhere leaves the whole meaning as it was. */
  lemma StepKeepsMeaning(macros: Table, file: string, ps: seq<Pp>, i: nat, qs: seq<Pp>)
    requires StepAt(macros, file, ps, i, qs)
    ensures MeaningAll(macros, file, qs) == MeaningAll(macros, file, ps)
  {
    Around(ps, i);
    var tail := ps[i + 1..];
    MeaningAppends(macros, file, ps[..i], [ps[i]] + tail);
    if Replaces(macros, ps, i, qs) {
      var repl := Replacement(macros[ps[i].tok.name], ps[i].hidden + {ps[i].tok.name});
      ReplacedAround(macros, ps, i, qs);
      MeaningAppends(macros, file, ps[..i], repl + tail);
      var bound := BoundExists(macros);
      Replaced(macros, file, bound, ps[i], tail);
    } else {
      LocatedAround(macros, file, ps, i, qs);
      MeaningAppends(macros, file, ps[..i], [qs[i]] + tail);
      Passed(macros, file, 0, ps[i], tail);
      Passed(macros, file, 0, qs[i], tail);
      assert Meaning(macros, file, ps[i]) == [qs[i]] == Meaning(macros, file, qs[i]);
    }
  }

  lemma {:induction false} StepsKeepMeaning(macros: Table, file: string, ps: seq<Pp>, qs: seq<Pp>, n: nat)
    requires Reaches(macros, file, ps, qs, n)
    ensures MeaningAll(macros, file, qs) == MeaningAll(macros, file, ps)
    decreases n
  {
    if n > 0 {
      var i: nat, mid :| StepThen(macros, file, ps, i, mid, qs, n);
      StepKeepsMeaning(macros, file, ps, i, mid);
      StepsKeepMeaning(macros, file, mid, qs, n - 1);
    }
  }

  /** Where no step applies nothing could still be expanded. */
  lemma StuckIsSettled(macros: Table, file: string, ps: seq<Pp>)
    ensures Stuck(macros, file, ps) <==> Settled(macros, ps)
  {
    if Stuck(macros, file, ps) {
      forall p | p in ps
        ensures !Expandable(macros, p) && !Dynamic(macros, p)
      {
        var i :| 0 <= i < |ps| && ps[i] == p;
        if Expandable(macros, p) || Dynamic(macros, p) {
          var qs := Stepped(macros, file, ps, i);
          assert false;
        }
      }
    }
    if Settled(macros, ps) {
      forall i: nat, qs
        ensures !StepAt(macros, file, ps, i, qs)
      {
        assert i < |ps| ==> ps[i] in ps;
      }
    }
  }

  /** Whatever can be expanded can be stepped. */
  lemma Stepped(macros: Table, file: string, ps: seq<Pp>, i: nat) returns (qs: seq<Pp>)
    requires i < |ps| && (Expandable(macros, ps[i]) || Dynamic(macros, ps[i]))
    ensures StepAt(macros, file, ps, i, qs)
  {
    if Expandable(macros, ps[i]) {
      var body := macros[ps[i].tok.name];
      qs := ps[..i] + Replacement(body, ps[i].hidden + {ps[i].tok.name}) + ps[i + 1..];
      assert Replaces(macros, ps, i, qs);
    } else {
      qs := ps[i := DynamicValue(file, ps[i])];
      assert Locates(macros, file, ps, i, qs);
    }
  }

  // ---- stepping ends ----

  /** Names weigh as in the loop's measure, anything else nothing. */
  function Load(macros: Table, bound: nat, ps: seq<Pp>): nat {
    if ps == [] then 0
    else (if ps[0].tok.Ident? then Pow(bound + 1, Left(macros, ps[0].hidden)) else 0) + Load(macros, bound, ps[1..])
  }

  lemma {:induction false} LoadAppends(macros: Table, bound: nat, a: seq<Pp>, b: seq<Pp>)
    ensures Load(macros, bound, a + b) == Load(macros, bound, a) + Load(macros, bound, b)
    decreases |a|
  {
    if a == [] {
      assert a + b == b;
    } else {
      assert (a + b)[1..] == a[1..] + b;
      LoadAppends(macros, bound, a[1..], b);
    }
  }

  lemma {:induction false} LoadBelowWeight(macros: Table, bound: nat, ps: seq<Pp>)
    ensures Load(macros, bound, ps) <= Weight(macros, bound, ps)
  {
    if ps != [] {
      LoadBelowWeight(macros, bound, ps[1..]);
    }
  }

  lemma LoadOne(macros: Table, bound: nat, p: Pp)
    ensures Load(macros, bound, [p]) == if p.tok.Ident? then Pow(bound + 1, Left(macros, p.hidden)) else 0
    ensures Weight(macros, bound, [p]) == Pow(bound + 1, Left(macros, p.hidden))
  {
    assert [p][1..] == [];
  }

  /** Every step lowers the load, so no sequence of steps goes on for ever. */
  lemma StepLightens(macros: Table, file: string, bound: nat, ps: seq<Pp>, i: nat, qs: seq<Pp>)
    requires BodiesWithin(macros, bound) && StepAt(macros, file, ps, i, qs)
    ensures Load(macros, bound, qs) < Load(macros, bound, ps)
  {
    Around(ps, i);
    var tail := ps[i + 1..];
    LoadAppends(macros, bound, ps[..i], [ps[i]] + tail);
    LoadAppends(macros, bound, [ps[i]], tail);
    LoadOne(macros, bound, ps[i]);
    if Replaces(macros, ps, i, qs) {
      var repl := Replacement(macros[ps[i].tok.name], ps[i].hidden + {ps[i].tok.name});
      ReplacedAround(macros, ps, i, qs);
      LoadAppends(macros, bound, ps[..i], repl + tail);
      LoadAppends(macros, bound, repl, tail);
      LoadBelowWeight(macros, bound, repl);
      ReplacingIsLighter(macros, bound, ps[i], []);
      assert repl + [] == repl && [ps[i]] + [] == [ps[i]];
    } else {
      LocatedAround(macros, file, ps, i, qs);
      LoadAppends(macros, bound, ps[..i], [qs[i]] + tail);
      LoadAppends(macros, bound, [qs[i]], tail);
      LoadOne(macros, bound, qs[i]);
    }
  }

  // ---- the loop computes the one end of every stepping ----

  lemma {:induction false} SomeSteps(macros: Table, file: string, bound: nat, ps: seq<Pp>) returns (n: nat)
    requires BodiesWithin(macros, bound)
    ensures Reaches(macros, file, ps, MeaningAll(macros, file, ps), n)
    decreases Load(macros, bound, ps)
  {
    if Settled(macros, ps) {
      SettledIsFixed(macros, file, ps);
      n := 0;
    } else {
      StuckIsSettled(macros, file, ps);
      var i: nat, mid :| StepAt(macros, file, ps, i, mid);
      StepLightens(macros, file, bound, ps, i, mid);
      StepKeepsMeaning(macros, file, ps, i, mid);
      n := SomeSteps(macros, file, bound, mid);
      n := n + 1;
      assert StepThen(macros, file, ps, i, mid, MeaningAll(macros, file, ps), n);
    }
  }

  /** What the rescanning loop yields is reached from its input by steps, no step applies
      to it, and whoever steps until none applies, in whatever order, ends there. */
  lemma ExpansionIsTheEnd(macros: Table, file: string, ps: seq<Pp>)
    ensures exists n: nat :: Reaches(macros, file, ps, MeaningAll(macros, file, ps), n)
    ensures Stuck(macros, file, MeaningAll(macros, file, ps))
    ensures forall n: nat, qs :: Reaches(macros, file, ps, qs, n) && Stuck(macros, file, qs) ==> qs == MeaningAll(macros, file, ps)
  {
    var bound := BoundExists(macros);
    var n := SomeSteps(macros, file, bound, ps);
    OutputSettled(macros, file, ps);
    StuckIsSettled(macros, file, MeaningAll(macros, file, ps));
    forall m: nat, qs | Reaches(macros, file, ps, qs, m) && Stuck(macros, file, qs)
      ensures qs == MeaningAll(macros, file, ps)
    {
      StepsKeepMeaning(macros, file, ps, qs, m);
      StuckIsSettled(macros, file, qs);
      SettledIsFixed(macros, file, qs);
    }
  }
}
