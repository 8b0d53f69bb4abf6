/** EXIT under the standard and under a Factor continuation, which puts back the stack saved on entry. */
module ExitMeaning {
  import opened Forth
  import opened Equivalence
  import opened Effects
  import opened EffectSound
  import opened EffectLimits
  import opened LowerExit
  import opened Exits
  import opened Telltale
  import opened Runtimes
  import LowerExitNormal
  import Pipeline

  // ----- where the two agree -----

  /** With nothing known, inference has passed every program. */
  lemma NothingPassed(m: Machine)
    ensures Passed(m, Env(map[], map[], {}))
  {}

  /** A program whose loops and match expressions hold no EXIT is even once compiled: no EXIT is left. */
  lemma CleanEven(m: Machine)
    requires forall lc :: lc in m.defs ==>
               LowerExitNormal.Clean(Names(m.defs[lc].scope, m.Words()), Pipeline.Desugar(m.defs[lc].body, lc))
    ensures EvenProgram(m.(defs := Pipeline.CompileDefs(m.defs, m.Words())), Env(map[], map[], {}))
  {
    var m1 := m.(defs := Pipeline.CompileDefs(m.defs, m.Words()));
    assert m1.defs.Keys == m.defs.Keys;
    assert m1.Words() == m.Words();
    NothingPassed(m1);
    forall lc | lc in m1.defs
      ensures Even(Env(map[], map[], {}), Names(m1.defs[lc].scope, m1.Words()), m1.defs[lc].body)
    {
      var n := Names(m.defs[lc].scope, m.Words());
      LowerExitNormal.CleanLosesExit(n, Pipeline.Desugar(m.defs[lc].body, lc));
      ExitFreeEven(Env(map[], map[], {}), n, At(0), m1.defs[lc].body);
    }
  }

  // ----- where they do not -----

  const loopBody := [BeginAgain([Lit(7), WordRef("exit")])]

  /** BEGIN 7 EXIT AGAIN returns seven under the standard and nothing on the Factor runtime. */
  lemma LoopExitLosesStack(m: Machine, st: State)
    requires m.defs == map["w" := Defining(loopBody)] && m.vars == map[]
    ensures Call(m.(restoring := false), "w", st, 1) == Next(Push(st, Number(7)))
    ensures Call(m.(restoring := true), "w", st, 1) == Next(st)
  {
    var st0 := st.(locals := map[]);
    assert [Lit(7)] + [WordRef("exit")] == [Lit(7), WordRef("exit")];
    assert loopBody == ExitLoop([Lit(7)]);
    forall b: bool
      ensures RunSeq(m.(restoring := b), Context({}, "w"), loopBody, st0, 1) == Exit(Push(st0, Number(7)))
    {
      RunExitLoop(m.(restoring := b), [Lit(7)], st0, 1);
      RunOne(m.(restoring := b), Context({}, "w"), Lit(7), st0, 1);
    }
  }

  /** A loop that runs its prefix once and exits. */
  function ExitLoop(prefix: seq<Expr>): seq<Expr> {
    [BeginAgain(prefix + [WordRef("exit")])]
  }

  ghost predicate Wraps(m: Machine, s: seq<Expr>) {
    m.defs == map["w" := Defining(s)] && m.vars == map[]
  }

  lemma RunExitLoop(m: Machine, prefix: seq<Expr>, st: State, fuel: nat)
    requires m.defs.Keys == {"w"} && m.vars == map[] && fuel > 0
    requires !RunSeq(m, Context({}, "w"), prefix, st, fuel).Exit?
    ensures RunSeq(m, Context({}, "w"), ExitLoop(prefix), st, fuel) ==
            match RunSeq(m, Context({}, "w"), prefix, st, fuel)
            case Next(st1) => Exit(st1)
            case other => other
  {
    var c, ex := Context({}, "w"), WordRef("exit");
    assert Lower("exit") == "exit";
    assert m.NamesOf(c) == Names({}, {"w"});
    var e := BeginAgain(prefix + [ex]);
    RunOne(m, c, e, st, fuel);
    RunConcat(m, c, prefix, [ex], st, fuel);
    var o := RunSeq(m, c, prefix, st, fuel);
    if o.Next? {
      RunOne(m, c, ex, o.state, fuel);
      assert RunExpr(m, c, ex, o.state, fuel) == Exit(o.state);
    }
    assert LoopTurn(m, c, e, st, fuel) == Leave(AndThen(m, c, o, [ex], fuel));
  }

  /** On every machine that meets the table, a call of the definition ends the same under both readings
      of EXIT. */
  ghost predicate ExitsAlike(table: map<string, Eff>, s: seq<Expr>) {
    forall m: Machine, st: State, fuel | Wraps(m, s) && MeetsTable(m, table) :: CallsAlike(m, st, fuel)
  }

  ghost predicate CallsAlike(m: Machine, st: State, fuel: nat)
    requires "w" in m.defs
  {
    Call(m.(restoring := true), "w", st, fuel) == Call(m.(restoring := false), "w", st, fuel)
  }

  lemma CallIs(m: Machine, s: seq<Expr>, st: State, fuel: nat)
    requires Wraps(m, s)
    ensures var st0 := st.(locals := map[]);
            Call(m, "w", st, fuel) == EndCall(m, st, st0, RunSeq(m, Context({}, "w"), s, st0, fuel))
  {
    var st0 := st.(locals := map[]);
    assert m.Preamble(Defining(s)) == [];
    assert BindLocals([], st0) == Next(st0);
    assert Enter(m, m.defs["w"], st) == Next(st0);
  }

  lemma {:induction false} PlainRegular(env: Env, n: Names, s: seq<Expr>)
    requires PlainCode(env, n, s)
    ensures RegularSeq(env, n, s, Ans) && InferBlock(env, n, s).Known? && !SeqHoldsExit(n, s)
    decreases s
  {
    if s != [] {
      assert s[0] in s;
      PlainRegular(env, n, s[1..]);
    }
  }

  /** After straight-line code, an EXIT that a loop keeps does what the standard says, on every machine
      that meets the table, if and only if that code has the effect ( -- ). */
  lemma LoopExitExactly(env: Env, prefix: seq<Expr>)
    requires PlainCode(env, Names({}, {"w"}), prefix) && "exit" !in env.table && "recurse" !in env.table
    ensures ExitsAlike(env.table, ExitLoop(prefix)) <==> InferBlock(env, Names({}, {"w"}), prefix) == Known(0, 0)
  {
    PlainRegular(env, Names({}, {"w"}), prefix);
    if InferBlock(env, Names({}, {"w"}), prefix) == Known(0, 0) {
      forall m: Machine, st: State, fuel | Wraps(m, ExitLoop(prefix)) && MeetsTable(m, env.table)
        ensures CallsAlike(m, st, fuel)
      {
        LevelAlike(m, env, prefix, st, fuel);
      }
    } else {
      var m := Machine(map["w" := Defining(ExitLoop(prefix))], map[],
                       (lc: string, s: seq<Cell>, w: World) => NewPrim(env.table, lc, s, w), false);
      TellsMeets(m, env.table);
      var st := Caller(InferBlock(env, Names({}, {"w"}), prefix).inputs);
      UnevenDiffers(m, env, prefix, st);
      assert !CallsAlike(m, st, 1);
    }
  }

  lemma LevelAlike(m: Machine, env: Env, prefix: seq<Expr>, st: State, fuel: nat)
    requires Wraps(m, ExitLoop(prefix)) && MeetsTable(m, env.table) && PlainCode(env, Names({}, {"w"}), prefix)
    requires InferBlock(env, Names({}, {"w"}), prefix) == Known(0, 0)
    ensures CallsAlike(m, st, fuel)
  {
    var c, st0, table := Context({}, "w"), st.(locals := map[]), Env(map[], env.table, {});
    assert m.NamesOf(c) == Names({}, {"w"});
    PlainRegular(table, m.NamesOf(c), prefix);
    PlainSame(env, m.NamesOf(c), prefix);
    forall b: bool
      ensures Call(m.(restoring := b), "w", st, fuel) ==
              match RunSeq(m.(restoring := false), c, prefix, st0, fuel)
              case Next(st1) => if fuel == 0 then Timeout else Next(st1.(locals := st.locals))
              case other => if fuel == 0 then Timeout else other
    {
      var m' := m.(restoring := b);
      assert m'.NamesOf(c) == m.NamesOf(c);
      CallIs(m', ExitLoop(prefix), st, fuel);
      RunOne(m', c, ExitLoop(prefix)[0], st0, fuel);
      if fuel > 0 {
        SeqNeverExits(m', c, prefix, st0, fuel);
        RunExitLoop(m', prefix, st0, fuel);
        PlainSameRun(m, c, env, prefix, b, st0, fuel);
        assert Passed(m', table);
        SoundSeq(m', table, c, prefix, st0, fuel);
        match RunSeq(m', c, prefix, st0, fuel)
        case Next(st1) =>
          assert st1.stack[..|st0.stack|] == st1.stack && st0.stack[..|st0.stack|] == st0.stack;
        case _ =>
      }
    }
  }

  lemma {:induction false} PlainSame(env: Env, n: Names, s: seq<Expr>)
    requires PlainCode(env, n, s)
    ensures InferBlock(Env(map[], env.table, {}), n, s) == InferBlock(env, n, s)
    decreases s
  {
    if s != [] {
      assert s[0] in s;
      PlainSame(env, n, s[1..]);
    }
  }

  /** Plain code calls nothing, so that what EXIT does to a call does not matter. */
  lemma {:induction false} PlainSameRun(m: Machine, c: Context, env: Env, s: seq<Expr>, b: bool, st: State, fuel: nat)
    requires PlainCode(env, m.NamesOf(c), s)
    ensures RunSeq(m.(restoring := b), c, s, st, fuel) == RunSeq(m.(restoring := false), c, s, st, fuel)
    decreases s
  {
    if s != [] {
      assert s[0] in s;
      assert m.(restoring := b).NamesOf(c) == m.NamesOf(c) == m.(restoring := false).NamesOf(c);
      PlainSameStep(m, c, env, s[0], b, st, fuel);
      var o := RunExpr(m.(restoring := false), c, s[0], st, fuel);
      if o.Next? {
        PlainSameRun(m, c, env, s[1..], b, o.state, fuel);
      }
    }
  }

  lemma PlainSameStep(m: Machine, c: Context, env: Env, e: Expr, b: bool, st: State, fuel: nat)
    requires e.Lit? || (e.WordRef? && IsTabled(env, m.NamesOf(c), e.name))
    ensures RunExpr(m.(restoring := b), c, e, st, fuel) == RunExpr(m.(restoring := false), c, e, st, fuel)
  {
    assert m.(restoring := b).NamesOf(c) == m.NamesOf(c) == m.(restoring := false).NamesOf(c);
    if e.WordRef? {
      var lc := Lower(e.name);
      assert RunPrim(m.(restoring := b), lc, st) == RunPrim(m.(restoring := false), lc, st);
    }
  }

  /** A caller with items of its own. */
  function Caller(depth: nat): State {
    State(seq(depth, i => Address("caller", 0)), map[], World(map[], map[], [], [], []))
  }

  lemma UnevenDiffers(m: Machine, env: Env, prefix: seq<Expr>, st: State)
    requires Wraps(m, ExitLoop(prefix)) && !m.restoring && Tells(m, env.table)
    requires PlainCode(env, Names({}, {"w"}), prefix) && InferBlock(env, Names({}, {"w"}), prefix).Known?
    requires InferBlock(env, Names({}, {"w"}), prefix) != Known(0, 0)
    requires st == Caller(InferBlock(env, Names({}, {"w"}), prefix).inputs)
    ensures !CallsAlike(m, st, 1)
  {
    var c := Context({}, "w");
    var made, zero := MakeSeq(env, prefix, Made(0, [], 0)), Made(0, [], 0);
    assert m.NamesOf(c) == Names({}, {"w"}) == m.(restoring := true).NamesOf(c);
    MakeEffect(env, m.NamesOf(c), prefix, zero);
    ThenIdentity(InferBlock(env, m.NamesOf(c), prefix));
    MakeOwn(env, prefix, zero);
    assert st.stack[..|st.stack|] + [] == st.stack;
    PlainRegular(env, m.NamesOf(c), prefix);
    forall b: bool
      ensures var o := RunSeq(m.(restoring := b), c, ExitLoop(prefix), st, 1); o.Exit? && o.state.stack == made.items
    {
      var m' := m.(restoring := b);
      assert m'.NamesOf(c) == m.NamesOf(c);
      SeqNeverExits(m', c, prefix, st, 1);
      RunExitLoop(m', prefix, st, 1);
      MakeRun(m', env, c, prefix, st.stack, st, zero, 1);
      assert st.stack[..0] + made.items == made.items;
    }
    CallIs(m.(restoring := true), ExitLoop(prefix), st, 1);
    CallIs(m.(restoring := false), ExitLoop(prefix), st, 1);
    assert forall x <- made.items :: x != Address("caller", 0);
    assert |made.items| > 0 ==> made.items[0] in made.items;
    assert |st.stack| > 0 ==> st.stack[0] == Address("caller", 0);
  }
}
