/** What inference reports, and what it does not (src/compiler/effect.rs). */
module EffectReports {
  import opened Forth
  import opened Occurrences
  import opened Effects
  import opened EffectSound
  import opened EffectInfer
  import opened EffectLimits

  // ----- CASE without a default -----

  /** A CASE without a default, one of whose arms is known to change the stack below the selector, where no
      match would leave it as it is. */
  predicate LacksDefault(env: Env, n: Names, e: Expr) {
    && e.Case? && e.default == NoElse
    && exists arm <- e.arms :: InferBlock(env, n, arm.body).Known? && InferBlock(env, n, arm.body) != Known(0, 0)
  }

  ghost predicate SomeLacks(env: Env, n: Names, among: set<Expr>) {
    exists e <- among :: LacksDefault(env, n, e)
  }

  predicate JustThat(warnings: seq<EffectError>, name: string) {
    forall w <- warnings :: w == CaseNeedsDefault(name)
  }

  lemma LacksUnion(env: Env, n: Names, a: set<Expr>, b: set<Expr>)
    ensures SomeLacks(env, n, a + b) <==> SomeLacks(env, n, a) || SomeLacks(env, n, b)
  {
    if SomeLacks(env, n, a) {
      var e :| e in a && LacksDefault(env, n, e);
      assert e in a + b;
    }
    if SomeLacks(env, n, b) {
      var e :| e in b && LacksDefault(env, n, e);
      assert e in a + b;
    }
  }

  lemma LacksOne(env: Env, n: Names, e: Expr)
    ensures SomeLacks(env, n, {e}) <==> LacksDefault(env, n, e)
  {
    if LacksDefault(env, n, e) {
      assert e in {e};
    }
  }

  lemma DiffersExactly(env: Env, n: Names, arm: Arm)
    ensures ArmDiffers(env, n, arm) <==>
            InferBlock(env, n, arm.body).Known? && InferBlock(env, n, arm.body) != Known(0, 0)
  {}

  /** A body is warned of if and only if some CASE in it, at any depth, lacks a default. */
  lemma {:induction false} WarnedExactly(env: Env, n: Names, s: seq<Expr>, name: string)
    ensures JustThat(CaseWarnings(env, n, s, name), name)
    ensures CaseWarnings(env, n, s, name) != [] <==> SomeLacks(env, n, Exprs(s))
    decreases SizeSeq(s), 1, |s|
  {
    if s != [] {
      WarnedExpr(env, n, s[0], name);
      WarnedExactly(env, n, s[1..], name);
      LacksUnion(env, n, {s[0]} + Inner(s[0]), Exprs(s[1..]));
    }
  }

  lemma {:induction false} WarnedExpr(env: Env, n: Names, e: Expr, name: string)
    ensures JustThat(ExprWarnings(env, n, e, name), name)
    ensures ExprWarnings(env, n, e, name) != [] <==> SomeLacks(env, n, {e} + Inner(e))
    decreases SizeExpr(e), 0
  {
    LacksUnion(env, n, {e}, Inner(e));
    LacksOne(env, n, e);
    match e
    case If(thenBody, elseBody) =>
      WarnedExactly(env, n, thenBody, name);
      WarnedElse(env, n, elseBody, name);
      LacksUnion(env, n, Exprs(thenBody), ElseExprs(elseBody));
    case BeginUntil(body) => WarnedExactly(env, n, body, name);
    case BeginAgain(body) => WarnedExactly(env, n, body, name);
    case DoLoop(_, body, _) => WarnedExactly(env, n, body, name);
    case BeginWhileRepeat(pred, body) =>
      WarnedExactly(env, n, pred, name);
      WarnedExactly(env, n, body, name);
      LacksUnion(env, n, Exprs(pred), Exprs(body));
    case Case(arms, default) =>
      WarnedArms(env, n, arms, name);
      WarnedElse(env, n, default, name);
      LacksUnion(env, n, ArmExprs(arms), ElseExprs(default));
      forall arm | arm in arms
        ensures ArmDiffers(env, n, arm) <==>
                InferBlock(env, n, arm.body).Known? && InferBlock(env, n, arm.body) != Known(0, 0)
      {
        DiffersExactly(env, n, arm);
      }
    case _ =>
  }

  lemma {:induction false} WarnedElse(env: Env, n: Names, e: Else, name: string)
    ensures JustThat(ElseWarnings(env, n, e, name), name)
    ensures ElseWarnings(env, n, e, name) != [] <==> SomeLacks(env, n, ElseExprs(e))
    decreases SizeElse(e), 0
  {
    match e
    case NoElse =>
    case ElseBody(body) => WarnedExactly(env, n, body, name);
  }

  lemma {:induction false} WarnedArms(env: Env, n: Names, arms: seq<Arm>, name: string)
    ensures JustThat(ArmsWarnings(env, n, arms, name), name)
    ensures ArmsWarnings(env, n, arms, name) != [] <==> SomeLacks(env, n, ArmExprs(arms))
    decreases SizeArms(arms), 0
  {
    if arms != [] {
      var a, b := Exprs(arms[0].matchExpr), Exprs(arms[0].body);
      WarnedExactly(env, n, arms[0].matchExpr, name);
      WarnedExactly(env, n, arms[0].body, name);
      WarnedArms(env, n, arms[1..], name);
      LacksUnion(env, n, a, b);
      LacksUnion(env, n, a + b, ArmExprs(arms[1..]));
    }
  }

  /** The arms of a CASE whose parts are known, each match expression adding one item to the selector or its
      copy. */
  predicate KnownArms(env: Env, n: Names, arms: seq<Arm>) {
    forall arm <- arms ::
      && InferBlock(env, n, arm.body).Known?
      && var m0 := InferBlock(env, n, arm.matchExpr); m0.Known? && m0.inputs <= 2 && m0.outputs == m0.inputs + 1
  }

  /** Without a default the effect of such a CASE is known if and only if it draws no warning. */
  lemma {:induction false} UnknownWarned(env: Env, n: Names, arms: seq<Arm>)
    requires KnownArms(env, n, arms)
    ensures InferCase(env, n, arms, NoElse).Known? <==> !LacksDefault(env, n, Case(arms, NoElse))
    ensures InferCase(env, n, arms, NoElse).Known? ==> InferCase(env, n, arms, NoElse) == Known(1, 0)
    decreases |arms|
  {
    if arms != [] {
      assert arms[0] in arms;
      UnknownWarned(env, n, arms[1..]);
      FirstArm(InferBlock(env, n, arms[0].matchExpr), InferBlock(env, n, arms[0].body),
               InferCase(env, n, arms[1..], NoElse));
      LacksCons(env, n, arms);
    }
  }

  lemma LacksCons(env: Env, n: Names, arms: seq<Arm>)
    requires arms != [] && InferBlock(env, n, arms[0].body).Known?
    ensures LacksDefault(env, n, Case(arms, NoElse)) <==>
            InferBlock(env, n, arms[0].body) != Known(0, 0) || LacksDefault(env, n, Case(arms[1..], NoElse))
  {
    assert arms == [arms[0]] + arms[1..];
    assert arms[0] in arms;
  }

  /** A test that gives the selector back has no effect besides. */
  lemma FirstArm(m0: Eff, b: Eff, rest: Eff)
    requires m0.Known? && m0.inputs <= 2 && m0.outputs == m0.inputs + 1 && b.Known?
    ensures var test := Then(Then(Known(1, 2), m0), Known(2, 1));
            var joined := Join(Then(Known(1, 0), b), rest);
            Then(Then(test, flag), joined) == joined
    ensures Then(Known(1, 0), b) == Known(1, 0) <==> b == Known(0, 0)
  {}

  // ----- declared effects -----

  /** A declared effect is compared with a known one, and reported with both if they differ; where there are
      parameters, only the outputs are compared. */
  lemma CheckReports(name: string, d: Definition, body: Eff)
    ensures Check(name, d, body) == [] <==>
            || d.declared.Undeclared? || body.Unknown?
            || (d.params == [] && body == Known(|d.declared.inputs|, d.declared.outputs))
            || (d.params != [] && body.Known? && body.outputs == d.declared.outputs)
    ensures Check(name, d, body) != [] ==>
              && d.declared.Effect? && body.Known?
              && Check(name, d, body) ==
                 [Mismatch(name, Known(|d.declared.inputs|, d.declared.outputs),
                           if d.params == [] then body else Known(|d.declared.inputs|, body.outputs))]
  {}

  /** For straight-line code without parameters, under the standard: nothing is reported if and only if calls
      do what is declared, and do it with no fewer inputs. */
  lemma CheckLeast(m: Machine, env: Env, name: string, lc: string, fuel: nat)
    requires StraightDef(m, env, lc) && m.defs[lc].declared.Effect? && m.defs[lc].params == [] && !m.restoring
    ensures var d := m.defs[lc];
            var i, o := |d.declared.inputs|, d.declared.outputs;
            Check(name, d, InferBlock(env, Names(d.scope, m.Words()), d.body)) == [] <==>
            CallsKeep(m, lc, i, o, fuel) && forall i1: nat, o1: nat :: i1 < i ==> !CallsKeep(m, lc, i1, o1, fuel)
  {
    var d := m.defs[lc];
    var body := InferBlock(env, Names(d.scope, m.Words()), d.body);
    StraightKnown(env, Names(d.scope, m.Words()), d.body);
    forall i: nat, o: nat
      ensures body.Known? && (CallsKeep(m, lc, i, o, fuel) <==> Nets(m, d, body, i, o))
    {
      KeepExactly(m, env, lc, i, o, fuel);
    }
    CheckReports(name, d, body);
    assert Nets(m, d, body, body.inputs, body.outputs);
    assert CallsKeep(m, lc, body.inputs, body.outputs, fuel);
  }

  // ----- a whole program -----

  /** Some definition draws this error when its body's effect, as recorded, is compared. */
  ghost predicate Drawn(items: seq<Item>, body: map<string, Eff>, e: EffectError) {
    exists item <- items :: item.DefItem? && e in Check(item.name, item.def, Lookup(body, Lower(item.name)))
  }

  lemma DrawnCons(items: seq<Item>, body: map<string, Eff>, e: EffectError)
    requires items != []
    ensures Drawn(items, body, e) <==>
            (items[0].DefItem? && e in Check(items[0].name, items[0].def, Lookup(body, Lower(items[0].name)))) ||
            Drawn(items[1..], body, e)
  {
    assert items == [items[0]] + items[1..];
  }

  lemma {:induction false} WalkReports(table: map<string, Eff>, words: set<string>, items: seq<Item>, r: Inference,
                                       e: EffectError)
    requires Distinct(items) && Pending(items, r.user) && e.Mismatch?
    ensures var r1 := Walk(table, words, items, r); e in r1.errors <==> e in r.errors || Drawn(items, r1.body, e)
    decreases items
  {
    if items != [] {
      var r1 := Walked(table, words, r, items[0]);
      StepPending(table, words, items, r);
      WalkReports(table, words, items[1..], r1, e);
      DrawnCons(items, Walk(table, words, items, r).body, e);
      if items[0].DefItem? {
        FirstReports(table, words, items, r, e);
      }
    }
  }

  lemma FirstReports(table: map<string, Eff>, words: set<string>, items: seq<Item>, r: Inference, e: EffectError)
    requires items != [] && items[0].DefItem? && Distinct(items) && Pending(items, r.user) && e.Mismatch?
    ensures var r1, final := Walked(table, words, r, items[0]), Walk(table, words, items, r);
            e in r1.errors <==>
            e in r.errors || e in Check(items[0].name, items[0].def, Lookup(final.body, Lower(items[0].name)))
  {
    var item := items[0];
    var lc, d := Lower(item.name), item.def;
    var r1 := Walked(table, words, r, item);
    StepPending(table, words, items, r);
    WalkKnowsMore(table, words, items[1..], r1);
    assert !DefinesIn(items[1..], lc) by {
      assert !NamesIn(items[1..], lc);
    }
    WarnedExactly(Env(r.user, table, {}), Names(d.scope, words), d.body, item.name);
  }

  /** The mismatches that inference returns are those of its definitions, each compared with the effect that
      is recorded for its body: none is missing, and none is made up. */
  lemma MismatchesExactly(table: map<string, Eff>, words: set<string>, items: seq<Item>, prior: map<string, Eff>,
                          e: EffectError)
    requires Distinct(items) && e.Mismatch?
    ensures var r := Infer(table, words, items, prior); e in r.errors <==> Drawn(items, r.body, e)
  {
    SeedPending(items, prior);
    WalkReports(table, words, items, Inference(Seed(items, prior), map[], []), e);
  }

  lemma {:induction false} SeedFixed(items: seq<Item>, user: map<string, Eff>)
    requires Distinct(items)
    ensures forall item <- items :: item.FixedItem? ==> Lookup(Seed(items, user), Lower(item.name)) == item.eff
  {
    if items != [] {
      SeedFixed(items[1..], Seeded(user, items[0]));
      SeedPending(items[1..], Seeded(user, items[0]));
      assert items == [items[0]] + items[1..];
    }
  }

  /** Two items of one name. */
  lemma {:induction false} NoTwice(items: seq<Item>, item: Item)
    requires Distinct(items) && item in items && item.FixedItem?
    ensures !DefinesIn(items, Lower(item.name))
    decreases items
  {
    assert items == [items[0]] + items[1..];
    if item == items[0] {
      assert !NamesIn(items[1..], Lower(item.name));
    } else {
      NoTwice(items[1..], item);
      assert NamesIn(items[1..], Lower(item.name));
    }
  }

  /** Words with a fixed effect keep it, and names that the program does not give a meaning to keep what was
      known of them before. */
  lemma FixedKept(table: map<string, Eff>, words: set<string>, items: seq<Item>, prior: map<string, Eff>)
    requires Distinct(items)
    ensures var user := Infer(table, words, items, prior).user;
            && (forall item <- items :: item.FixedItem? ==> Lookup(user, Lower(item.name)) == item.eff)
            && (forall lc :: !NamesIn(items, lc) ==> Lookup(user, lc) == Lookup(prior, lc))
  {
    SeedPending(items, prior);
    SeedFixed(items, prior);
    WalkKnowsMore(table, words, items, Inference(Seed(items, prior), map[], []));
    forall item | item in items && item.FixedItem?
      ensures !DefinesIn(items, Lower(item.name))
    {
      NoTwice(items, item);
    }
    forall lc | !NamesIn(items, lc)
      ensures !DefinesIn(items, lc)
    {}
  }

  /** The i-th item is a definition of that name, and when its turn comes some CASE in its body lacks a
      default. */
  ghost predicate WarnedAt(table: map<string, Eff>, words: set<string>, items: seq<Item>, r: Inference, i: nat,
                           name: string)
  {
    && i < |items| && items[i].DefItem? && items[i].name == name
    && SomeLacks(Env(Walk(table, words, items[..i], r).user, table, {}), Names(items[i].def.scope, words),
                 Exprs(items[i].def.body))
  }

  ghost predicate Warned(table: map<string, Eff>, words: set<string>, items: seq<Item>, r: Inference, name: string) {
    exists i: nat :: WarnedAt(table, words, items, r, i, name)
  }

  lemma WarnedLater(table: map<string, Eff>, words: set<string>, items: seq<Item>, r: Inference, i: nat, name: string)
    requires items != [] && i < |items| - 1
    ensures WarnedAt(table, words, items, r, i + 1, name) <==>
            WarnedAt(table, words, items[1..], Walked(table, words, r, items[0]), i, name)
  {
    assert items[..i + 1][0] == items[0] && items[..i + 1][1..] == items[1..][..i];
  }

  lemma WarnedCons(table: map<string, Eff>, words: set<string>, items: seq<Item>, r: Inference, name: string)
    requires items != []
    ensures Warned(table, words, items, r, name) <==>
            WarnedAt(table, words, items, r, 0, name) ||
            Warned(table, words, items[1..], Walked(table, words, r, items[0]), name)
  {
    var r1 := Walked(table, words, r, items[0]);
    if i: nat :| WarnedAt(table, words, items, r, i, name) {
      if i > 0 {
        WarnedLater(table, words, items, r, i - 1, name);
      }
    }
    if i: nat :| WarnedAt(table, words, items[1..], r1, i, name) {
      WarnedLater(table, words, items, r, i, name);
    }
  }

  lemma FirstWarned(table: map<string, Eff>, words: set<string>, items: seq<Item>, r: Inference, name: string)
    requires items != []
    ensures CaseNeedsDefault(name) in Walked(table, words, r, items[0]).errors <==>
            CaseNeedsDefault(name) in r.errors || WarnedAt(table, words, items, r, 0, name)
  {
    var item := items[0];
    assert items[..0] == [];
    if item.DefItem? {
      var env, n := Env(r.user, table, {}), Names(item.def.scope, words);
      WarnedExactly(env, n, item.def.body, item.name);
      var warnings := CaseWarnings(env, n, item.def.body, item.name);
      if warnings != [] {
        assert warnings[0] in warnings;
      }
    }
  }

  /** Definitions are warned of in the same way: exactly those with a CASE that lacks a default, by what is
      known when their turn comes. */
  lemma {:induction false} WarningsExactly(table: map<string, Eff>, words: set<string>, items: seq<Item>, r: Inference,
                                           name: string)
    ensures CaseNeedsDefault(name) in Walk(table, words, items, r).errors <==>
            CaseNeedsDefault(name) in r.errors || Warned(table, words, items, r, name)
    decreases items
  {
    if items != [] {
      FirstWarned(table, words, items, r, name);
      WarningsExactly(table, words, items[1..], Walked(table, words, r, items[0]), name);
      WarnedCons(table, words, items, r, name);
    }
  }
}
